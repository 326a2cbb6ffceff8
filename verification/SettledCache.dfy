/**
 * Occlusion queries and fences (guest/opengl/occlusion.cpp) against a host
 * that obeys guest/include/gl.h, lines 290-327. Records execute in issue
 * order and every poll follows what was issued, so a record acts at its call.
 */
module SettledCache {
  import opened Words
  import opened SettledTable
  import opened DataRecord

  const SLOTS: nat := 64
  const PENDING: u32 := 1
  const AVAILABLE: u32 := 2
  const REPORTS: nat := 63
  const ALL_COMPLETED: u32 := 0x84f2

  datatype Option<T> = None | Some(value: T)
  datatype Status = Running | Pending | Available(result: u32)
  datatype Wanted = Result | ResultAvailable
  datatype FenceCall = Test | Finish | GetStatus | GetCondition

  /** The host: query objects, the active one (0 for none), and fences with their signals. */
  datatype Host = Host(queries: map<u32, Status>, active: u32, fences: map<u32, bool>)

  predicate HostOk(h: Host) {
    h.active != 0 ==> h.active in h.queries && h.queries[h.active] == Running
  }

  // ---- What the host does with a record, and by itself ----

  function HostBegin(h: Host, id: u32, refused: bool): Host {
    if id == 0 || h.active != 0 || refused then h else h.(queries := h.queries[id := Running], active := id)
  }

  function HostEnd(h: Host): Host {
    if h.active == 0 then h else h.(queries := h.queries[h.active := Pending], active := 0)
  }

  function HostDeleteQueries(h: Host, names: seq<u32>): Host {
    if h.active != 0 then h else h.(queries := h.queries - set n | n in names)
  }

  function HostDeleteFences(h: Host, names: seq<u32>): Host {
    h.(fences := h.fences - set n | n in names)
  }

  function HostSetFence(h: Host, fence: u32, refused: bool): Host {
    if fence == 0 || refused then h else h.(fences := h.fences[fence := false])
  }

  /** A pending result becomes available, at any time. */
  function HostCompletes(h: Host, id: u32, result: u32): Host {
    if id in h.queries && h.queries[id] == Pending then h.(queries := h.queries[id := Available(result)]) else h
  }

  function HostSignals(h: Host, fence: u32): Host {
    if fence in h.fences then h.(fences := h.fences[fence := true]) else h
  }

  /** What the poll must report; nothing for a name that is no query object or is active. */
  function HostValue(h: Host, id: u32, wanted: Wanted): Option<u32> {
    if id !in h.queries then None
    else match h.queries[id]
      case Running => None
      case Pending => if wanted == ResultAvailable then Some(0) else None
      case Available(result) => Some(if wanted == Result then result else 1)
  }

  predicate IsPair(h: Host, words: seq<u32>, i: nat) {
    i + 1 < |words| && words[i] in h.queries && h.queries[words[i]] == Available(words[i + 1])
  }

  /** GetQueryObjectuiv's answer: state, result, then pairs of other available results; one zero word is an error. */
  predicate AnswersPoll(h: Host, id: u32, wanted: Wanted, words: seq<u32>) {
    if id !in h.queries || h.queries[id] == Running then words == [0]
    else
      && 2 <= |words| <= 2 + 2 * REPORTS && |words| % 2 == 0
      && (if h.queries[id] == Pending then wanted == ResultAvailable && words[0] == PENDING && words[1] == 0
          else words[0] == AVAILABLE && h.queries[id] == Available(words[1]))
      && forall i: nat :: 2 <= i < |words| && i % 2 == 0 ==> IsPair(h, words, i)
  }

  /** The fence records' answer: one, then the status or the condition. */
  predicate AnswersFence(h: Host, call: FenceCall, fence: u32, words: seq<u32>) {
    if fence !in h.fences then words == [0]
    else words == [1, if call == GetCondition then ALL_COMPLETED else if h.fences[fence] then 1 else 0]
  }

  // ---- Coherence ----

  /** Every kept result and signal is what the host would answer now. */
  ghost predicate Coherent(results: map<u32, u32>, fences: map<u32, u32>, h: Host) {
    && HostOk(h)
    && (forall n :: n in results ==> n in h.queries && h.queries[n] == Available(results[n]))
    && (forall n :: n in fences ==> n in h.fences && h.fences[n])
  }

  lemma CoherentBegin(results: map<u32, u32>, fences: map<u32, u32>, h: Host, id: u32, refused: bool)
    requires Coherent(results, fences, h)
    ensures Coherent(results - {id}, fences, h) && Coherent(results - {id}, fences, HostBegin(h, id, refused))
  {
  }

  lemma CoherentEnd(results: map<u32, u32>, fences: map<u32, u32>, h: Host)
    requires Coherent(results, fences, h)
    ensures Coherent(results, fences, HostEnd(h))
  {
  }

  lemma CoherentDelete(results: map<u32, u32>, fences: map<u32, u32>, h: Host, names: seq<u32>)
    requires Coherent(results, fences, h)
    ensures (forall n :: n in names ==> n !in results) ==> Coherent(results, fences, HostDeleteQueries(h, names))
    ensures (forall n :: n in names ==> n !in fences) ==> Coherent(results, fences, HostDeleteFences(h, names))
  {
  }

  lemma CoherentSet(results: map<u32, u32>, fences: map<u32, u32>, h: Host, fence: u32, refused: bool)
    requires Coherent(results, fences, h)
    ensures Coherent(results, fences - {fence}, h) && Coherent(results, fences - {fence}, HostSetFence(h, fence, refused))
  {
  }

  lemma CoherentTime(results: map<u32, u32>, fences: map<u32, u32>, h: Host, name: u32, result: u32)
    requires Coherent(results, fences, h)
    ensures Coherent(results, fences, HostCompletes(h, name, result)) && Coherent(results, fences, HostSignals(h, name))
  {
  }

  lemma CoherentKeep(results: map<u32, u32>, fences: map<u32, u32>, h: Host, name: u32, value: u32, victim: u32)
    requires Coherent(results, fences, h)
    ensures name in h.queries && h.queries[name] == Available(value) ==> Coherent((results - {victim})[name := value], fences, h)
    ensures name in h.fences && h.fences[name] ==> Coherent(results, (fences - {victim})[name := value], h)
  {
  }

  /** Calls, the host's own steps, and polls with the answer the host gave; an answer against its rules is no event. */
  datatype Event =
    | Begin(id: u32, compiling: bool, refused: bool)
    | End(compiling: bool)
    | Delete(ofFences: bool, names: seq<u32>)
    | Set(fence: u32, compiling: bool, refused: bool)
    | List(compiling: bool, after: Host)
    | Completes(id: u32, result: u32)
    | Signals(fence: u32)
    | Poll(id: u32, wanted: Wanted, answer: Option<seq<u32>>)
    | Probe(fence: u32, answer: Option<seq<u32>>)
    | Finished(fence: u32, answer: Option<seq<u32>>)
    | Get(fence: u32, condition: bool, answer: Option<seq<u32>>)

  /** The host obeys its rules: a poll's answer is true, FinishFence answers once the fence is signalled. */
  predicate Lawful(h: Host, e: Event) {
    match e
    case List(_, after) => HostOk(after)
    case Poll(id, wanted, answer) => answer.Some? ==> AnswersPoll(h, id, wanted, answer.value)
    case Probe(fence, answer) => answer.Some? ==> AnswersFence(h, Test, fence, answer.value)
    case Finished(fence, answer) => answer.Some? ==> AnswersFence(h, Finish, fence, answer.value) && (fence in h.fences ==> h.fences[fence])
    case Get(fence, condition, answer) => answer.Some? ==> AnswersFence(h, if condition then GetCondition else GetStatus, fence, answer.value)
    case _ => true
  }

  function HostStepped(h: Host, e: Event): Host {
    match e
    case Begin(id, compiling, refused) => if compiling then h else HostBegin(h, id, refused)
    case End(compiling) => if compiling then h else HostEnd(h)
    case Delete(ofFences, names) => if ofFences then HostDeleteFences(h, Nonzero(names)) else HostDeleteQueries(h, Nonzero(names))
    case Set(fence, compiling, refused) => if compiling then h else HostSetFence(h, fence, refused)
    case List(compiling, after) => if compiling || !HostOk(after) then h else after
    case Completes(id, result) => HostCompletes(h, id, result)
    case Signals(fence) => HostSignals(h, fence)
    case _ => h
  }

  /** The host after `events`, which no cache has any part in. */
  function HostAfter(h: Host, events: seq<Event>): Host {
    if events == [] then h else HostStepped(HostAfter(h, events[..|events| - 1]), events[|events| - 1])
  }

  lemma HostOneMore(h: Host, events: seq<Event>, e: Event)
    ensures HostAfter(h, events + [e]) == HostStepped(HostAfter(h, events), e)
  {
    assert (events + [e])[..|events|] == events;
  }

  datatype Reply = Nothing | Value(value: Option<u32>, asked: bool) | Signalled(yes: bool, asked: bool) | Waited(asked: bool)

  /** The reply is what host `h` says, whether it was asked or not; a request that failed says nothing. */
  predicate SaysTheHost(h: Host, e: Event, reply: Reply) {
    if !Lawful(h, e) then reply == Nothing
    else match e
      case Poll(id, wanted, answer) =>
        reply.Value? && reply.value == if reply.asked && answer.None? then None else HostValue(h, id, wanted)
      case Probe(fence, answer) =>
        reply.Signalled? && reply.yes == ((reply.asked && answer.None?) || fence !in h.fences || h.fences[fence])
      case Finished(fence, answer) =>
        reply.Waited? && ((reply.asked && answer.None?) || fence !in h.fences || h.fences[fence])
      case Get(fence, condition, answer) =>
        reply.Value? && reply.value == if (reply.asked && answer.None?) || fence !in h.fences then None
                                       else Some(if condition then ALL_COMPLETED else if h.fences[fence] then 1 else 0)
      case _ => reply == Nothing
  }

  /** The names a deletion sends: zeros are skipped. */
  function Nonzero(names: seq<u32>): seq<u32> {
    if names == [] then [] else
      Nonzero(names[..|names| - 1]) + if names[|names| - 1] != 0 then [names[|names| - 1]] else []
  }

  lemma NonzeroOneMore(names: seq<u32>, name: u32)
    ensures Nonzero(names + [name]) == Nonzero(names) + if name != 0 then [name] else []
  {
    assert (names + [name])[..|names|] == names;
  }

  lemma DeleteNothing(h: Host)
    ensures HostDeleteFences(h, []) == h && HostDeleteQueries(h, []) == h
  {
  }

  lemma DeleteTwice(h: Host, a: seq<u32>, b: seq<u32>)
    ensures HostDeleteFences(HostDeleteFences(h, a), b) == HostDeleteFences(h, a + b)
    ensures HostDeleteQueries(HostDeleteQueries(h, a), b) == HostDeleteQueries(h, a + b)
  {
    assert (set n | n in a + b) == (set n | n in a) + (set n | n in b);
  }

  lemma {:induction false} NonzeroHas(names: seq<u32>, n: u32)
    ensures n in Nonzero(names) <==> n in names && n != 0
    decreases |names|
  {
    if names != [] {
      NonzeroHas(names[..|names| - 1], n);
      assert names == names[..|names| - 1] + [names[|names| - 1]];
    }
  }

  // ---- Names in batches ----

  ghost function Joined(batches: seq<seq<u32>>): seq<u32> {
    if batches == [] then [] else Joined(batches[..|batches| - 1]) + batches[|batches| - 1]
  }

  /** No batch is empty or larger than `limit`; all but the last, or all, are full. */
  ghost predicate FullBatches(batches: seq<seq<u32>>, limit: nat, all: bool) {
    forall i :: 0 <= i < |batches| ==> 0 < |batches[i]| <= limit && (all || i < |batches| - 1 ==> |batches[i]| == limit)
  }

  /** The names go out in order, each once, in records as full as one record can be. */
  ghost predicate InBatches(batches: seq<seq<u32>>, names: seq<u32>, maxWords: nat) {
    Joined(batches) == names && exists limit: nat :: IsBatch(limit, maxWords) && FullBatches(batches, limit, false)
  }

  lemma NoBatches(limit: nat)
    ensures FullBatches([], limit, true) && Joined([]) == Nonzero([]) == []
  {
  }

  lemma OneMoreBatch(h: Host, m: map<u32, u32>, batches: seq<seq<u32>>, batch: seq<u32>, limit: nat, full: bool)
    requires FullBatches(batches, limit, true) && 0 < |batch| <= limit && (full ==> |batch| == limit)
    ensures FullBatches(batches + [batch], limit, full) && Joined(batches + [batch]) == Joined(batches) + batch
    ensures HostDeleteFences(HostDeleteFences(h, Joined(batches)), batch) == HostDeleteFences(h, Joined(batches) + batch)
    ensures HostDeleteQueries(HostDeleteQueries(h, Joined(batches)), batch) == HostDeleteQueries(h, Joined(batches) + batch)
    ensures forall n :: n in batch ==> n !in Without(m, Joined(batches) + batch)
  {
    hide HostDeleteFences, HostDeleteQueries;
    assert (batches + [batch])[..|batches|] == batches;
    DeleteTwice(h, Joined(batches), batch);
  }

  lemma AllInBatches(batches: seq<seq<u32>>, limit: nat, names: seq<u32>, maxWords: nat)
    requires Joined(batches) == names && IsBatch(limit, maxWords) && (FullBatches(batches, limit, true) || FullBatches(batches, limit, false))
    ensures InBatches(batches, names, maxWords)
  {
    hide IsBatch;
    assert FullBatches(batches, limit, false);
  }

  /** What is kept once these names are forgotten. */
  ghost function Without(m: map<u32, u32>, names: seq<u32>): map<u32, u32> {
    m - set n | n in names
  }

  lemma WithoutNothing(m: map<u32, u32>)
    ensures Without(m, []) == m
  {
  }

  lemma WithoutOneMore(m: map<u32, u32>, names: seq<u32>, name: u32)
    ensures Without(m, names + [name]) == Without(m, names) - {name}
  {
    assert (set n | n in names + [name]) == (set n | n in names) + {name};
  }

  // ---- The life of one query and one fence on the host ----

  /** The event starts query n: it is recorded, not compiled, and the host accepts it. */
  predicate Starts(h: Host, e: Event, n: u32) {
    e == Begin(n, false, false) && n != 0 && h.active == 0
  }

  predicate Deletes(e: Event, ofFences: bool, n: u32) {
    e.Delete? && e.ofFences == ofFences && n in e.names && n != 0
  }

  /** A query exists from its first begin to its deletion; it runs, is pending after its end, then has the result the host found. */
  lemma QueryLife(h: Host, e: Event, n: u32)
    requires HostOk(h) && !e.List?
    ensures var t := HostStepped(h, e);
            && HostOk(t)
            && (n in t.queries <==> Starts(h, e, n) || (n in h.queries && !(Deletes(e, false, n) && h.active == 0)))
            && (n in t.queries ==>
                  t.queries[n] == if Starts(h, e, n) then Running
                                  else if e == End(false) && h.active == n && n != 0 then Pending
                                  else if e.Completes? && e.id == n && h.queries[n] == Pending then Available(e.result)
                                  else h.queries[n])
            && (t.active == n && n != 0 <==> Starts(h, e, n) || (h.active == n && n != 0 && e != End(false)))
  {
    if e.Delete? {
      NonzeroHas(e.names, n);
      NonzeroHas(e.names, h.active);
    }
  }

  /** A fence exists from its first set to its deletion; it is signalled by the host alone, and setting it again unsignals it. */
  lemma FenceLife(h: Host, e: Event, n: u32)
    requires !e.List?
    ensures var t, set_ := HostStepped(h, e), e == Event.Set(n, false, false) && n != 0;
            && (n in t.fences <==> set_ || (n in h.fences && !Deletes(e, true, n)))
            && (n in t.fences ==> t.fences[n] == (!set_ && (h.fences[n] || e == Signals(n))))
  {
    if e.Delete? {
      NonzeroHas(e.names, n);
    }
  }

  /** Nothing after event `i` starts or deletes query n. */
  ghost predicate Untouched(h: Host, events: seq<Event>, n: u32, i: nat) {
    forall x :: i < x < |events| ==> !Starts(HostAfter(h, events[..x]), events[x], n) && !(Deletes(events[x], false, n) && HostAfter(h, events[..x]).active == 0)
  }

  ghost predicate BegunAt(h: Host, events: seq<Event>, n: u32, i: nat) {
    i < |events| && Starts(HostAfter(h, events[..i]), events[i], n) && Untouched(h, events, n, i)
  }

  /** glEndQuery is issued after event `i`, and the host finds the result after that. */
  ghost predicate EndedAfter(events: seq<Event>, i: nat) {
    exists j: nat :: i < j < |events| && events[j] == End(false)
  }

  ghost predicate CompletedAfter(events: seq<Event>, i: nat, n: u32, result: u32) {
    exists k: nat :: i < k < |events| && events[k] == Completes(n, result) && EndedAfter(events[..k], i)
  }

  /** The status is of the name's last begin: begun, ended and completed with it, in that order. */
  ghost predicate HasOrigin(h: Host, events: seq<Event>, n: u32, status: Status, i: nat) {
    && BegunAt(h, events, n, i)
    && (status == Pending ==> EndedAfter(events, i))
    && (status.Available? ==> CompletedAfter(events, i, n, status.result))
  }

  lemma {:induction false} ResultHasOrigin(h: Host, events: seq<Event>, n: u32)
    requires h.queries == map[] && h.active == 0 && forall k :: 0 <= k < |events| ==> !events[k].List?
    ensures var t := HostAfter(h, events); HostOk(t) && (n in t.queries ==> exists i :: HasOrigin(h, events, n, t.queries[n], i))
    decreases |events|
  {
    hide HostStepped, HasOrigin, HostOk, Starts, Deletes;
    if events == [] {
      NoQueries(h);
    } else {
      var m := |events| - 1;
      var before, e := events[..m], events[m];
      ResultHasOrigin(h, before, n);
      var u := HostAfter(h, before);
      QueryLife(u, e, n);
      if n in HostStepped(u, e).queries {
        if Starts(u, e, n) {
          JustBegun(h, events, n);
        } else {
          var i :| HasOrigin(h, before, n, u.queries[n], i);
          OriginStays(h, events, n, u.queries[n], i);
        }
      }
    }
  }

  lemma NoQueries(h: Host)
    ensures h.active == 0 ==> HostOk(h)
  {
  }

  lemma JustBegun(h: Host, events: seq<Event>, n: u32)
    requires |events| > 0 && Starts(HostAfter(h, events[..|events| - 1]), events[|events| - 1], n)
    ensures HasOrigin(h, events, n, Running, |events| - 1)
  {
    hide Starts;
  }

  lemma OriginStays(h: Host, events: seq<Event>, n: u32, status: Status, i: nat)
    requires |events| > 0 && HasOrigin(h, events[..|events| - 1], n, status, i)
    requires var u, e := HostAfter(h, events[..|events| - 1]), events[|events| - 1];
             !Starts(u, e, n) && !(Deletes(e, false, n) && u.active == 0)
    ensures HasOrigin(h, events, n, status, i)
    ensures events[|events| - 1] == End(false) ==> HasOrigin(h, events, n, Pending, i)
    ensures forall r :: status == Pending && events[|events| - 1] == Completes(n, r) ==> HasOrigin(h, events, n, Available(r), i)
  {
    hide BegunAt, Starts, Deletes;
    var before := events[..|events| - 1];
    StaysBegun(h, events, n, i);
    if EndedAfter(before, i) {
      var j: nat :| i < j < |before| && before[j] == End(false);
      assert events[j] == End(false);
    }
    if status.Available? {
      var k: nat :| i < k < |before| && before[k] == Completes(n, status.result) && EndedAfter(before[..k], i);
      assert before[..k] == events[..k] && events[k] == before[k];
    }
  }

  lemma StaysBegun(h: Host, events: seq<Event>, n: u32, i: nat)
    requires |events| > 0 && BegunAt(h, events[..|events| - 1], n, i)
    requires var u, e := HostAfter(h, events[..|events| - 1]), events[|events| - 1];
             !Starts(u, e, n) && !(Deletes(e, false, n) && u.active == 0)
    ensures BegunAt(h, events, n, i)
  {
    var before := events[..|events| - 1];
    assert forall x :: 0 <= x <= |before| ==> before[..x] == events[..x];
  }

  lemma PairMeans(h: Host, words: seq<u32>, i: nat)
    requires IsPair(h, words, i)
    ensures i + 1 < |words| && words[i] in h.queries && h.queries[words[i]] == Available(words[i + 1])
  {
  }

  lemma AnswerMeans(h: Host, id: u32, wanted: Wanted, words: seq<u32>)
    requires AnswersPoll(h, id, wanted, words)
    ensures |words| < 2 ==> HostValue(h, id, wanted) == None && HostValue(h, id, ResultAvailable) == None
    ensures |words| >= 2 ==> |words| % 2 == 0 && forall i: nat :: 2 <= i < |words| && i % 2 == 0 ==> IsPair(h, words, i)
    ensures |words| >= 2 && words[0] != AVAILABLE ==> wanted == ResultAvailable && HostValue(h, id, ResultAvailable) == Some(0)
    ensures |words| >= 2 && words[0] == AVAILABLE ==> id in h.queries && h.queries[id] == Available(words[1])
  {
  }

  lemma FoundMeans(results: map<u32, u32>, fences: map<u32, u32>, h: Host, id: u32, wanted: Wanted)
    requires Coherent(results, fences, h)
    ensures id in results ==> HostValue(h, id, wanted) == Some(if wanted == Result then results[id] else 1)
    ensures id in h.queries && h.queries[id].Available? ==> HostValue(h, id, wanted) == Some(if wanted == Result then h.queries[id].result else 1)
  {
  }

  class Queries {
    const Results: Settled
    const Fences: Settled
    const MaxWords: nat
    var Remote: Host

    ghost predicate Inv()
      reads this, Results, Results.Names, Results.Values, Fences, Fences.Names, Fences.Values
    {
      && Apart(Results, Fences) && 32 <= MaxWords
      && Results.Valid() && Fences.Valid() && Coherent(Results.Map(), Fences.Map(), Remote)
    }

    constructor (h: Host, maxWords: nat)
      requires HostOk(h) && 32 <= maxWords
      ensures Inv() && MaxWords == maxWords && Remote == h && Results.Map() == map[] && Fences.Map() == map[]
      ensures fresh(Results) && fresh(Results.Names) && fresh(Results.Values) && fresh(Fences) && fresh(Fences.Names) && fresh(Fences.Values)
    {
      Results := new Settled(SLOTS);
      Fences := new Settled(SLOTS);
      Remote, MaxWords := h, maxWords;
    }

    /** QueryObjectValue: from the cache, or from the host's answer (None when the request failed). */
    method QueryObjectValue(id: u32, wanted: Wanted, answer: Option<seq<u32>>) returns (value: Option<u32>, asked: bool)
      requires Inv() && (answer.Some? ==> AnswersPoll(Remote, id, wanted, answer.value))
      modifies Results, Results.Names, Results.Values
      ensures Inv() && Fences.Map() == old(Fences.Map())
      ensures asked == (id !in old(Results.Map()))
      ensures value == if asked && answer.None? then None else HostValue(Remote, id, wanted)
      ensures value.Some? && id != 0 && HostValue(Remote, id, ResultAvailable) == Some(1) ==> id in Results.Map()
      ensures asked && answer.Some? && |answer.value| >= 2 && old(Results.Count) + |answer.value| / 2 <= Results.Names.Length ==>
                && old(Results.Map()).Keys <= Results.Map().Keys
                && forall i: nat :: 2 <= i < |answer.value| && i % 2 == 0 && answer.value[i] != 0 ==> answer.value[i] in Results.Map()
    {
      hide Pairs, Distinct, AnswersPoll, HostValue, Settled.Map, Settled.Valid;
      var found, result := Results.Find(id);
      asked := !found;
      if !found {
        if answer.None? {
          return None, asked;
        }
        var words := answer.value;
        AnswerMeans(Remote, id, wanted, words);
        if |words| < 2 || |words| % 2 != 0 {
          return None, asked;
        }
        KeepReports(words);
        if words[0] != AVAILABLE {
          return if wanted == ResultAvailable then Some(0) else None, asked;
        }
        result := words[1];
        KeepResult(id, result);
      }
      FoundMeans(Results.Map(), Fences.Map(), Remote, id, wanted);
      value := Some(if wanted == Result then result else 1);
    }

    /** One reported result. */
    method KeepResult(id: u32, result: u32)
      requires Inv() && id in Remote.queries && Remote.queries[id] == Available(result)
      modifies Results, Results.Names, Results.Values
      ensures Inv() && Fences.Map() == old(Fences.Map()) && (id != 0 ==> id in Results.Map())
      ensures Results.Count <= old(Results.Count) + 1
      ensures old(Results.Count) < Results.Names.Length ==> old(Results.Map()).Keys <= Results.Map().Keys
    {
      hide Pairs, Distinct, Coherent;
      ghost var results, fences := Results.Map(), Fences.Map();
      ghost var victim := Results.Keep(id, result);
      CoherentKeep(results, fences, Remote, id, result, victim);
    }

    /** The pairs of an answer: all of them are kept while there is room, and then nothing is forgotten for them; the last always is. */
    method KeepReports(words: seq<u32>)
      requires Inv() && |words| % 2 == 0
      requires forall i: nat :: 2 <= i < |words| && i % 2 == 0 ==> IsPair(Remote, words, i)
      modifies Results, Results.Names, Results.Values
      ensures Inv() && Fences.Map() == old(Fences.Map())
      ensures |words| > 2 && words[|words| - 2] != 0 ==> words[|words| - 2] in Results.Map()
      ensures Results.Count <= old(Results.Count) + if |words| >= 2 then |words| / 2 - 1 else 0
      ensures old(Results.Count) + |words| / 2 <= Results.Names.Length + 1 ==>
                && old(Results.Map()).Keys <= Results.Map().Keys
                && forall i: nat :: 2 <= i < |words| && i % 2 == 0 && words[i] != 0 ==> words[i] in Results.Map()
    {
      hide Pairs, Distinct, Coherent, IsPair, Settled.Map;
      var i := 2;
      while i < |words|
        invariant i % 2 == 0 && Inv() && Fences.Map() == old(Fences.Map())
        invariant 2 < i <= |words| && words[i - 2] != 0 ==> words[i - 2] in Results.Map()
        invariant 2 <= i && if |words| >= 2 then i <= |words| else i == 2
        invariant 2 * Results.Count <= 2 * old(Results.Count) + i - 2
        invariant old(Results.Count) + |words| / 2 <= Results.Names.Length + 1 ==>
                    && old(Results.Map()).Keys <= Results.Map().Keys
                    && forall k: nat :: 2 <= k < i && k < |words| && k % 2 == 0 && words[k] != 0 ==> words[k] in Results.Map()
        modifies Results, Results.Names, Results.Values
      {
        PairMeans(Remote, words, i);
        KeepResult(words[i], words[i + 1]);
        i := i + 2;
      }
    }

    /** glBeginQueryARB; `refused` is the host's budget. */
    method BeginQuery(id: u32, compiling: bool, refused: bool)
      requires Inv()
      modifies this`Remote, Results, Results.Names, Results.Values
      ensures Inv() && Results.Map() == old(Results.Map()) - {id} && Fences.Map() == old(Fences.Map())
      ensures Remote == if compiling then old(Remote) else HostBegin(old(Remote), id, refused)
    {
      hide Pairs, Distinct, Coherent;
      ghost var results, fences := Results.Map(), Fences.Map();
      CoherentBegin(results, fences, Remote, id, refused);
      Results.Forget(id);
      if !compiling {
        Remote := HostBegin(Remote, id, refused);
      }
    }

    method EndQuery(compiling: bool)
      requires Inv()
      modifies this`Remote
      ensures Inv() && Remote == if compiling then old(Remote) else HostEnd(old(Remote))
    {
      hide Pairs, Distinct, Coherent;
      CoherentEnd(Results.Map(), Fences.Map(), Remote);
      if !compiling {
        Remote := HostEnd(Remote);
      }
    }

    /** glDeleteQueriesARB and glDeleteFencesNV: forget as the names pass, delete in batches of `limit`. */
    method DeleteNames(fences: bool, names: seq<u32>) returns (batches: seq<seq<u32>>)
      requires Inv()
      modifies this`Remote, Results, Results.Names, Results.Values, Fences, Fences.Names, Fences.Values
      ensures Inv() && InBatches(batches, Nonzero(names), MaxWords)
      ensures Results.Map() == if fences then old(Results.Map()) else Without(old(Results.Map()), Nonzero(names))
      ensures Fences.Map() == if fences then Without(old(Fences.Map()), Nonzero(names)) else old(Fences.Map())
      ensures Remote == if fences then HostDeleteFences(old(Remote), Nonzero(names)) else HostDeleteQueries(old(Remote), Nonzero(names))
    {
      hide Pairs, Distinct, Coherent, HostDeleteFences, HostDeleteQueries, Without, MaxDataBytes, IsBatch, Joined, FullBatches, Settled.Map, Settled.Valid,
        Nonzero, InBatches, Apart;
      BatchIs(MaxWords);
      var limit := if MaxDataBytes(1, MaxWords) / 4 < 256 then MaxDataBytes(1, MaxWords) / 4 else 256;
      BatchHolds(limit, MaxWords);
      var batch: seq<u32> := [];
      ghost var kept, h := if fences then Fences.Map() else Results.Map(), Remote;
      DeleteNothing(h);
      WithoutNothing(kept);
      batches := [];
      NoBatches(limit);
      var i := 0;
      assert names[..i] == [];
      while i < |names|
        invariant i <= |names| && Inv() && |batch| < limit && Joined(batches) + batch == Nonzero(names[..i]) && FullBatches(batches, limit, true)
        invariant (if fences then Fences.Map() else Results.Map()) == Without(kept, Nonzero(names[..i]))
        invariant if fences then Results.Map() == old(Results.Map()) else Fences.Map() == old(Fences.Map())
        invariant Remote == if fences then HostDeleteFences(h, Joined(batches)) else HostDeleteQueries(h, Joined(batches))
        modifies this`Remote, Results, Results.Names, Results.Values, Fences, Fences.Names, Fences.Values
      {
        assert names[..i + 1] == names[..i] + [names[i]];
        NonzeroOneMore(names[..i], names[i]);
        if names[i] != 0 {
          WithoutOneMore(kept, Nonzero(names[..i]), names[i]);
          Forget(fences, names[i]);
          assert Joined(batches) + (batch + [names[i]]) == Joined(batches) + batch + [names[i]];
          batch := batch + [names[i]];
          if |batch| == limit {
            OneMoreBatch(h, kept, batches, batch, limit, true);
            SendBatch(fences, batch);
            batches, batch := batches + [batch], [];
          }
        }
        i := i + 1;
      }
      assert names[..i] == names && (batch == [] ==> Joined(batches) + batch == Joined(batches));
      if batch != [] {
        OneMoreBatch(h, kept, batches, batch, limit, false);
        SendBatch(fences, batch);
        batches := batches + [batch];
      }
      AllInBatches(batches, limit, Nonzero(names), MaxWords);
    }

    method Forget(fences: bool, name: u32)
      requires Inv()
      modifies Results, Results.Names, Results.Values, Fences, Fences.Names, Fences.Values
      ensures Inv()
      ensures if fences then Results.Map() == old(Results.Map()) && Fences.Map() == old(Fences.Map()) - {name}
              else Fences.Map() == old(Fences.Map()) && Results.Map() == old(Results.Map()) - {name}
    {
      hide Pairs, Distinct, Coherent;
      if fences {
        CoherentSet(Results.Map(), Fences.Map(), Remote, name, true);
        Fences.Forget(name);
      } else {
        CoherentBegin(Results.Map(), Fences.Map(), Remote, name, true);
        Results.Forget(name);
      }
    }

    method SendBatch(fences: bool, batch: seq<u32>)
      requires Inv() && forall n :: n in batch ==> n !in (if fences then Fences.Map() else Results.Map())
      modifies this`Remote
      ensures Inv() && Remote == if fences then HostDeleteFences(old(Remote), batch) else HostDeleteQueries(old(Remote), batch)
    {
      hide Pairs, Distinct, Coherent;
      CoherentDelete(Results.Map(), Fences.Map(), Remote, batch);
      Remote := if fences then HostDeleteFences(Remote, batch) else HostDeleteQueries(Remote, batch);
    }

    /** glSetFenceNV. */
    method SetFence(fence: u32, compiling: bool, refused: bool)
      requires Inv()
      modifies this`Remote, Fences, Fences.Names, Fences.Values
      ensures Inv() && Fences.Map() == old(Fences.Map()) - {fence} && Results.Map() == old(Results.Map())
      ensures Remote == if compiling then old(Remote) else HostSetFence(old(Remote), fence, refused)
    {
      hide Pairs, Distinct, Coherent;
      CoherentSet(Results.Map(), Fences.Map(), Remote, fence, refused);
      Fences.Forget(fence);
      if !compiling {
        Remote := HostSetFence(Remote, fence, refused);
      }
    }

    /** ListEffects: an executed list leaves the host's queries and fences in any state. */
    method CallList(compiling: bool, after: Host)
      requires Inv() && HostOk(after)
      modifies this`Remote, Results`Count, Fences`Count
      ensures Inv()
      ensures if compiling then Remote == old(Remote) && Results.Map() == old(Results.Map()) && Fences.Map() == old(Fences.Map())
              else Remote == after && Results.Map() == map[] && Fences.Map() == map[]
    {
      hide Pairs, Distinct;
      if !compiling {
        Results.Clear();
        Fences.Clear();
        Remote := after;
      }
    }

    /** The host's own steps. */
    method HostStep(name: u32, result: u32, signal: bool)
      requires Inv()
      modifies this`Remote
      ensures Inv() && Remote == if signal then HostSignals(old(Remote), name) else HostCompletes(old(Remote), name, result)
    {
      hide Pairs, Distinct, Coherent;
      CoherentTime(Results.Map(), Fences.Map(), Remote, name, result);
      Remote := if signal then HostSignals(Remote, name) else HostCompletes(Remote, name, result);
    }

    /** FenceAnswer: a TRUE status is kept. */
    method FenceAnswer(call: FenceCall, fence: u32, answer: Option<seq<u32>>) returns (value: Option<u32>)
      requires Inv() && (answer.Some? ==> AnswersFence(Remote, call, fence, answer.value))
      modifies Fences, Fences.Names, Fences.Values
      ensures Inv() && Results.Map() == old(Results.Map())
      ensures value == if answer.None? || fence !in Remote.fences then None else Some(answer.value[1])
      ensures value.Some? && call != GetCondition && Remote.fences[fence] && fence != 0 ==> fence in Fences.Map()
    {
      hide Pairs, Distinct, Coherent;
      if answer.None? || |answer.value| != 2 || answer.value[0] != 1 {
        return None;
      }
      if call != GetCondition && answer.value[1] != 0 {
        ghost var results, fences := Results.Map(), Fences.Map();
        ghost var victim := Fences.Keep(fence, 1);
        CoherentKeep(results, fences, Remote, fence, 1, victim);
      }
      return Some(answer.value[1]);
    }

    /** glTestFenceNV and, for a request that succeeds, exactly the host's answer: TRUE also for what is no fence. */
    method TestFence(fence: u32, answer: Option<seq<u32>>) returns (signalled: bool, asked: bool)
      requires Inv() && (answer.Some? ==> AnswersFence(Remote, Test, fence, answer.value))
      modifies Fences, Fences.Names, Fences.Values
      ensures Inv() && Results.Map() == old(Results.Map()) && asked == (fence !in old(Fences.Map()))
      ensures !asked || answer.Some? ==> signalled == (fence !in Remote.fences || Remote.fences[fence])
      ensures asked && answer.None? ==> signalled
    {
      hide Pairs, Distinct;
      var found, kept := Fences.Find(fence);
      if found {
        return true, false;
      }
      var status := FenceAnswer(Test, fence, answer);
      return status.None? || status.value != 0, true;
    }

    /** glFinishFenceNV: a cached signal needs no waiting; the host answers once the fence is signalled. */
    method FinishFence(fence: u32, answer: Option<seq<u32>>) returns (asked: bool)
      requires Inv() && (answer.Some? ==> AnswersFence(Remote, Finish, fence, answer.value) && (fence in Remote.fences ==> Remote.fences[fence]))
      modifies Fences, Fences.Names, Fences.Values
      ensures Inv() && asked == (fence !in old(Fences.Map()))
      ensures (!asked || answer.Some?) && fence in Remote.fences ==> Remote.fences[fence]
    {
      hide Pairs, Distinct;
      var found, kept := Fences.Find(fence);
      if found {
        return false;
      }
      var status := FenceAnswer(Finish, fence, answer);
      return true;
    }

    /** glGetFenceivNV. */
    method GetFence(fence: u32, condition: bool, answer: Option<seq<u32>>) returns (value: Option<u32>, asked: bool)
      requires Inv() && (answer.Some? ==> AnswersFence(Remote, if condition then GetCondition else GetStatus, fence, answer.value))
      modifies Fences, Fences.Names, Fences.Values
      ensures Inv() && asked == (fence !in old(Fences.Map()))
      ensures value == if (asked && answer.None?) || fence !in Remote.fences then None
                       else Some(if condition then ALL_COMPLETED else if Remote.fences[fence] then 1 else 0)
    {
      hide Pairs, Distinct;
      var found, kept := Fences.Find(fence);
      if found {
        return Some(if condition then ALL_COMPLETED else 1), false;
      }
      value := FenceAnswer(if condition then GetCondition else GetStatus, fence, answer);
      return value, true;
    }

    /** One call with its reply, or a step of the host. */
    method Serve(e: Event) returns (reply: Reply)
      requires Inv()
      modifies this`Remote, Results, Results.Names, Results.Values, Fences, Fences.Names, Fences.Values
      ensures Inv() && Remote == HostStepped(old(Remote), e) && SaysTheHost(old(Remote), e, reply)
    {
      hide Pairs, Distinct, Coherent, AnswersPoll, AnswersFence, HostValue, HostBegin, HostEnd, HostSetFence, HostDeleteQueries, HostDeleteFences,
        HostCompletes, HostSignals, Nonzero;
      reply := Nothing;
      if !Lawful(Remote, e) {
        return;
      }
      match e {
        case Begin(id, compiling, refused) => BeginQuery(id, compiling, refused);
        case End(compiling) => EndQuery(compiling);
        case Delete(ofFences, names) => var batches := DeleteNames(ofFences, names);
        case Set(fence, compiling, refused) => SetFence(fence, compiling, refused);
        case List(compiling, after) => CallList(compiling, after);
        case Completes(id, result) => HostStep(id, result, false);
        case Signals(fence) => HostStep(fence, 0, true);
        case Poll(id, wanted, answer) =>
          var value, asked := QueryObjectValue(id, wanted, answer);
          reply := Value(value, asked);
        case Probe(fence, answer) =>
          var signalled, asked := TestFence(fence, answer);
          reply := Signalled(signalled, asked);
        case Finished(fence, answer) =>
          var asked := FinishFence(fence, answer);
          reply := Waited(asked);
        case Get(fence, condition, answer) =>
          var value, asked := GetFence(fence, condition, answer);
          reply := Value(value, asked);
      }
    }

    /**
     * Any run of calls and of the host's own steps, with every answer the
     * host may give: each reply, from the cache or not, is what the host would
     * say at that point of its own run.
     */
    method Run(events: seq<Event>) returns (replies: seq<Reply>)
      requires Inv()
      modifies this`Remote, Results, Results.Names, Results.Values, Fences, Fences.Names, Fences.Values
      ensures Inv() && Remote == HostAfter(old(Remote), events) && |replies| == |events|
      ensures forall i :: 0 <= i < |events| ==> SaysTheHost(HostAfter(old(Remote), events[..i]), events[i], replies[i])
    {
      hide Pairs, Distinct, Coherent, HostStepped, SaysTheHost;
      replies := [];
      var i := 0;
      while i < |events|
        invariant i <= |events| && Inv() && Remote == HostAfter(old(Remote), events[..i]) && |replies| == i
        invariant forall k :: 0 <= k < i ==> SaysTheHost(HostAfter(old(Remote), events[..k]), events[k], replies[k])
        modifies this`Remote, Results, Results.Names, Results.Values, Fences, Fences.Names, Fences.Values
      {
        var reply := Serve(events[i]);
        HostOneMore(old(Remote), events[..i], events[i]);
        assert events[..i + 1] == events[..i] + [events[i]];
        replies := replies + [reply];
        i := i + 1;
      }
      assert events[..i] == events;
    }
  }

  ghost predicate Apart(a: Settled, b: Settled) {
    a != b && {a.Names, a.Values} !! {b.Names, b.Values}
  }
}
