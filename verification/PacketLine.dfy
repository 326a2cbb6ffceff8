/**
 * The packets of the frontend's contexts (guest/opengl/frontend.cpp, lines
 * 391-457): what waits in them, in which order it can go out, and what each
 * step of a flush, a record or a switch does to that line.
 * A context is named by its nonzero Id; 0 stands for no context.
 */
module PacketLine {
  import opened SubmissionLedger

  datatype Mode = Synchronous | Asynchronous | Cleanup

  /** A client area: what WindowGeometry finds. */
  datatype View = View(found: bool, window: nat, width: nat, height: nat)

  /** A window that is not minimized. */
  predicate Shown(v: View) {
    v.found && v.width != 0 && v.height != 0
  }

  /** What the window system and the host know of a context. */
  datatype Setup = Setup(created: bool, deleting: bool, inBegin: bool, drawable: bool, attached: bool, frontDirty: bool, view: View)

  datatype Context = Context(packet: seq<Entry>, used: nat, records: nat,
                             failed: bool, uncertain: bool, deferredFault: bool, setup: Setup)

  type Contexts = map<nat, Context>

  /**
   * Issued records, those the driver has had (a query it refused included), the
   * serials of the lost ones, and whether a record overtook another.
   */
  datatype Log = Log(issued: seq<Entry>, accepted: seq<Entry>, lost: set<nat>, overtook: bool)

  /**
   * One request as the driver answers it: other streams whose failures it
   * reports first, whether it takes the request, whether a refusal is for an
   * earlier failure of the same stream, and whether a query's answer is malformed.
   */
  datatype Reply = Reply(reports: seq<nat>, taken: bool, known: bool, earlier: bool, malformed: bool)

  datatype Limits = Limits(words: nat, records: nat)

  function WordsOf(packet: seq<Entry>): nat {
    if packet == [] then 0 else WordsOf(packet[..|packet| - 1]) + packet[|packet| - 1].words
  }

  /**
   * A context's packet is its own records, within the limits; what a failed
   * context still holds is lost, and one whose state is uncertain has failed.
   */
  ghost predicate WellPacked(l: Limits, id: nat, c: Context, lost: set<nat>) {
    && c.records == |c.packet| <= l.records && c.used == WordsOf(c.packet) <= l.words
    && AllOf(c.packet, id) && (forall e :: e in c.packet ==> e.words > 0)
    && (c.failed ==> Serials(c.packet) <= lost) && (c.uncertain ==> c.failed)
  }

  ghost predicate AllWellPacked(l: Limits, t: Contexts, lost: set<nat>) {
    32 <= l.words && 0 < l.records && 0 !in t && forall id :: id in t ==> WellPacked(l, id, t[id], lost)
  }

  /** What a context still has to submit; a failed context submits nothing. */
  function Waiting(t: Contexts, id: nat): seq<Entry> {
    if id in t && !t[id].failed then t[id].packet else []
  }

  function Behind(t: Contexts, released: nat, actor: nat, current: nat): seq<Entry> {
    if current == actor || current == released then [] else Waiting(t, current)
  }

  /** The released context's packet, then the packet of the context now submitting. */
  ghost function Ahead(t: Contexts, released: nat, actor: nat): seq<Entry> {
    Waiting(t, released) + (if actor == released then [] else Waiting(t, actor))
  }

  /** All that was accepted, then all that waits, in the order in which it can still be accepted. */
  ghost function Line(log: Log, t: Contexts, released: nat, actor: nat, current: nat): seq<Entry> {
    log.accepted + Ahead(t, released, actor) + Behind(t, released, actor, current)
  }

  /** A context left inside Begin/End keeps records that nothing will submit. */
  ghost predicate Stranded(t: Contexts, id: nat, lost: set<nat>) {
    id in t && t[id].setup.inBegin && Serials(t[id].packet) <= lost
  }

  /** Records wait only in the released, the submitting and the current context. */
  ghost predicate OnlyLineWaits(t: Contexts, lost: set<nat>, released: nat, actor: nat, current: nat) {
    forall id :: Waiting(t, id) != [] ==> id == released || id == actor || id == current || Stranded(t, id, lost)
  }

  ghost predicate LineAccounted(log: Log, t: Contexts, released: nat, actor: nat, current: nat) {
    && Ledger(log.issued, Line(log, t, released, actor, current), log.lost, log.overtook)
    && OnlyLineWaits(t, log.lost, released, actor, current)
  }

  // ---- What a flush does ----

  /** Contexts other than `ids` may only learn of a failure; those of `ids` have sent their packet or failed. */
  ghost predicate Sends(t: Contexts, t2: Contexts, ids: set<nat>) {
    && t2.Keys == t.Keys
    && forall x :: x in t ==>
         && t2[x].setup == t[x].setup && (t[x].failed ==> t2[x].failed) && (t[x].deferredFault ==> t2[x].deferredFault || t2[x].failed)
         && (t2[x].packet == t[x].packet || t2[x].packet == [])
         && (if x in ids then !t2[x].failed ==> t2[x].packet == [] else t2[x].packet == t[x].packet && t2[x].failed == t[x].failed)
  }

  /** A failure that was reported for `id` has failed it. */
  predicate TakesFault(t: Contexts, t2: Contexts, id: nat) {
    id in t && t[id].deferredFault ==> id in t2 && t2[id].failed
  }

  function Outcome(t: Contexts, t2: Contexts, id: nat): seq<Entry> {
    if id in t && id in t2 && !t2[id].failed then t[id].packet else []
  }

  /** What `id` could still have sent is lost when it has failed. */
  function LostOf(t: Contexts, t2: Contexts, id: nat): set<nat> {
    if id in t2 && t2[id].failed then Serials(Waiting(t, id)) else {}
  }

  /** `id`'s packet was taken, or the context failed. */
  ghost predicate Sent(log: Log, t: Contexts, log2: Log, t2: Contexts, id: nat) {
    && log2 == log.(accepted := log.accepted + Outcome(t, t2, id), lost := log.lost + LostOf(t, t2, id))
    && Sends(t, t2, {id})
  }

  /** Flush: the released context's packet first, then `id`'s. */
  ghost predicate Flushed(log: Log, t: Contexts, released: nat, log2: Log, t2: Contexts, id: nat) {
    var first := if released == id then 0 else released;
    && log2.accepted == log.accepted + Outcome(t, t2, first) + Outcome(t, t2, id)
    && log2.lost == log.lost + LostOf(t, t2, first) + LostOf(t, t2, id)
    && log2.issued == log.issued && log2.overtook == log.overtook
    && Sends(t, t2, {first, id})
  }

  lemma SendsBoth(t: Contexts, t1: Contexts, t2: Contexts, released: nat, id: nat)
    requires released != id && Sends(t, t1, {released}) && Sends(t1, t2, {id})
    ensures Sends(t, t2, {released, id})
  {
  }

  lemma SentBoth(log: Log, t: Contexts, log1: Log, t1: Contexts, log2: Log, t2: Contexts, released: nat, id: nat)
    requires released != id && Sent(log, t, log1, t1, released) && Sent(log1, t1, log2, t2, id)
    ensures Flushed(log, t, released, log2, t2, id)
  {
    SendsBoth(t, t1, t2, released, id);
    assert Waiting(t1, id) == Waiting(t, id);
  }

  lemma SentAlone(log: Log, t: Contexts, log2: Log, t2: Contexts, released: nat, id: nat)
    requires 0 !in t && (released == id || released == 0) && Sent(log, t, log2, t2, id)
    ensures Flushed(log, t, released, log2, t2, id)
  {
  }

  lemma FlushedAlone(log: Log, t: Contexts, log2: Log, t2: Contexts, id: nat)
    requires 0 !in t && Flushed(log, t, 0, log2, t2, id)
    ensures Sent(log, t, log2, t2, id)
  {
    assert Outcome(t, t2, 0) == [] && LostOf(t, t2, 0) == {};
  }

  lemma AcceptedOrLost(issued: seq<Entry>, before: seq<Entry>, part: seq<Entry>, after: seq<Entry>, lost: set<nat>,
                       overtook: bool, failed: bool)
    requires Ledger(issued, before + part + after, lost, overtook)
    ensures Ledger(issued, before + (if failed then [] else part) + after, lost + (if failed then Serials(part) else {}), overtook)
  {
    hide Ledger, Serials;
    if failed {
      DropLoses(issued, before, part, after, lost, overtook);
      assert before + [] + after == before + after;
    } else {
      assert lost + {} == lost;
    }
  }

  lemma BothAcceptedOrLost(issued: seq<Entry>, a: seq<Entry>, r: seq<Entry>, c: seq<Entry>, b: seq<Entry>, lost: set<nat>,
                           overtook: bool, firstFailed: bool, failed: bool)
    requires Ledger(issued, a + r + c + b, lost, overtook)
    ensures Ledger(issued, a + (if firstFailed then [] else r) + (if failed then [] else c) + b,
                   lost + (if firstFailed then Serials(r) else {}) + (if failed then Serials(c) else {}), overtook)
  {
    hide Ledger, Serials;
    var r2 := if firstFailed then [] else r;
    assert a + r + c + b == a + r + (c + b);
    AcceptedOrLost(issued, a, r, c + b, lost, overtook, firstFailed);
    assert a + r2 + (c + b) == a + r2 + c + b;
    AcceptedOrLost(issued, a + r2, c, b, lost + (if firstFailed then Serials(r) else {}), overtook, failed);
  }

  lemma LineParts(log: Log, t: Contexts, released: nat, id: nat, current: nat)
    requires 0 !in t
    ensures var first := if released == id then 0 else released;
            Line(log, t, released, id, current)
            == log.accepted + Waiting(t, first) + Waiting(t, id) + Behind(t, released, id, current)
  {
  }

  /** A flush keeps the books: the line is unchanged but for what failed contexts lose. */
  lemma FlushKeepsLedger(l: Limits, log: Log, t: Contexts, released: nat, log2: Log, t2: Contexts, id: nat, current: nat)
    requires AllWellPacked(l, t, log.lost) && id in t && Flushed(log, t, released, log2, t2, id)
    requires Ledger(log.issued, Line(log, t, released, id, current), log.lost, log.overtook)
    ensures Ledger(log2.issued, Line(log2, t2, 0, id, current), log2.lost, log2.overtook)
  {
    hide Ledger, WellPacked, Line, Waiting, Sends, Behind, Serials;
    var first := if released == id then 0 else released;
    LineParts(log, t, released, id, current);
    OutcomeOfWaiting(t, t2, {first, id}, first);
    OutcomeOfWaiting(t, t2, {first, id}, id);
    BehindStays(t, released, t2, id, current);
    BothAcceptedOrLost(log.issued, log.accepted, Waiting(t, first), Waiting(t, id), Behind(t, released, id, current), log.lost, log.overtook,
                       first in t2 && t2[first].failed, id in t2 && t2[id].failed);
    WaitingZero(t2);
    assert t2.Keys == t.Keys by { SendsKeys(t, t2, {first, id}); }
    LineParts(log2, t2, 0, id, current);
    AppendNothing(log2.accepted, Behind(t, released, id, current));
  }

  lemma SendsKeys(t: Contexts, t2: Contexts, ids: set<nat>)
    requires Sends(t, t2, ids)
    ensures t2.Keys == t.Keys
  {
  }

  lemma WaitingZero(t: Contexts)
    ensures 0 !in t ==> Waiting(t, 0) == []
  {
  }

  lemma AppendNothing(a: seq<Entry>, b: seq<Entry>)
    ensures a + [] + [] + b == a + b
  {
  }

  lemma WaitingIsOwn(l: Limits, t: Contexts, lost: set<nat>, id: nat)
    requires AllWellPacked(l, t, lost)
    ensures AllOf(Waiting(t, id), id) && (id == 0 ==> Waiting(t, id) == [])
  {
  }

  lemma OutcomeOfWaiting(t: Contexts, t2: Contexts, ids: set<nat>, id: nat)
    requires Sends(t, t2, ids) && id in ids
    ensures Outcome(t, t2, id) == (if id in t2 && t2[id].failed then [] else Waiting(t, id))
    ensures Waiting(t2, id) == []
  {
  }

  lemma BehindStays(t: Contexts, released: nat, t2: Contexts, id: nat, current: nat)
    requires 0 !in t && Sends(t, t2, {if released == id then 0 else released, id})
    ensures Behind(t2, 0, id, current) == Behind(t, released, id, current)
  {
  }

  lemma FlushLeavesLine(t: Contexts, released: nat, t2: Contexts, lost: set<nat>, lost2: set<nat>, id: nat, current: nat)
    requires OnlyLineWaits(t, lost, released, id, current) && lost <= lost2 && Sends(t, t2, {if released == id then 0 else released, id})
    ensures OnlyLineWaits(t2, lost2, 0, id, current)
  {
    forall x | Waiting(t2, x) != []
      ensures x == 0 || x == id || x == current || Stranded(t2, x, lost2)
    {
      assert Waiting(t, x) != [];
    }
  }

  lemma FlushKeepsLine(l: Limits, log: Log, t: Contexts, released: nat, log2: Log, t2: Contexts, id: nat, current: nat)
    requires AllWellPacked(l, t, log.lost) && id in t && Flushed(log, t, released, log2, t2, id)
    requires LineAccounted(log, t, released, id, current)
    ensures LineAccounted(log2, t2, 0, id, current)
  {
    hide AllWellPacked, Ledger, Line, Sends, OnlyLineWaits;
    FlushKeepsLedger(l, log, t, released, log2, t2, id, current);
    FlushLeavesLine(t, released, t2, log.lost, log2.lost, id, current);
  }

  /** The contexts that a request of `stream` reported, and they alone, have learnt of a failure. */
  ghost predicate Marked(t: Contexts, t2: Contexts, stream: nat, reports: seq<nat>) {
    && t2.Keys == t.Keys
    && forall x :: x in t ==>
         t2[x] == t[x].(deferredFault := t[x].deferredFault || (stream != 0 && x != stream && x in reports))
  }

  lemma MarkedOne(t: Contexts, t1: Contexts, stream: nat, reports: seq<nat>, other: nat)
    requires Marked(t, t1, stream, reports) && stream != 0
    ensures var t2 := if other != stream && other in t1 then t1[other := t1[other].(deferredFault := true)] else t1;
            Marked(t, t2, stream, reports + [other])
  {
  }

  lemma MarkedNone(t: Contexts, stream: nat, reports: seq<nat>)
    ensures Marked(t, t, stream, []) && (stream == 0 ==> Marked(t, t, stream, reports))
  {
  }

  lemma MarkedKeeps(l: Limits, t: Contexts, t2: Contexts, lost: set<nat>, stream: nat, reports: seq<nat>)
    requires AllWellPacked(l, t, lost) && Marked(t, t2, stream, reports)
    ensures AllWellPacked(l, t2, lost) && Sends(t, t2, {}) && (reports == [] ==> t2 == t)
  {
  }

  /** A flush asks the driver unless the context has failed, is told of a failure now, or has nothing to send. */
  predicate Submits(c: Context, mode: Mode) {
    !c.failed && !(mode != Cleanup && c.deferredFault) && c.used > 0
  }

  /** A context after its request. */
  function Settled(c: Context, taken: bool, known: bool): Context {
    Context([], 0, 0, c.failed || !taken, c.uncertain || (!taken && !known), c.deferredFault, c.setup)
  }

  /**
   * Exactly what a context's own flush does to the contexts: it learns of a
   * reported failure, except in cleanup; its request decides the rest.
   */
  ghost predicate Submitted(t: Contexts, t2: Contexts, id: nat, mode: Mode, stream: nat, r: Reply)
    requires id in t
  {
    && t2.Keys == t.Keys
    && (forall x :: x in t && x != id ==>
          t2[x] == t[x].(deferredFault := t[x].deferredFault || (Submits(t[id], mode) && stream != 0 && x != stream && x in r.reports)))
    && var c := if mode == Cleanup then t[id] else t[id].(deferredFault := false, failed := t[id].failed || t[id].deferredFault);
       t2[id] == if Submits(t[id], mode) then Settled(c, r.taken, r.known) else c
  }

  lemma SubmittedNothing(t: Contexts, t1: Contexts, id: nat, mode: Mode, stream: nat, r: Reply)
    requires id in t && !Submits(t[id], mode) && t1 == if mode == Cleanup then t else Faulted(t, id)
    ensures Submitted(t, t1, id, mode, stream, r) && (mode != Cleanup ==> TakesFault(t, t1, id) && !t1[id].deferredFault)
  {
  }

  /** The request's reports mark the others, its outcome settles the context. */
  ghost predicate AnsweredTo(t: Contexts, t2: Contexts, id: nat, stream: nat, r: Reply)
    requires id in t
  {
    exists t1 :: Marked(t, t1, stream, r.reports) && id in t1 && t2 == t1[id := Settled(t1[id], r.taken, r.known)]
  }

  lemma SubmittedThen(t: Contexts, t1: Contexts, t2: Contexts, id: nat, mode: Mode, stream: nat, r: Reply)
    requires id in t && Submits(t[id], mode) && (stream == 0 || stream == id) && (mode == Cleanup ==> stream == 0)
    requires t1 == if mode == Cleanup then t else Faulted(t, id)
    requires AnsweredTo(t1, t2, id, stream, r)
    ensures Submitted(t, t2, id, mode, stream, r) && (mode != Cleanup ==> TakesFault(t, t2, id) && !t2[id].deferredFault)
  {
  }

  lemma FailKeeps(l: Limits, t: Contexts, lost: set<nat>, id: nat, c: Context)
    requires AllWellPacked(l, t, lost) && id in t && c.setup == t[id].setup && c.failed
    requires (c.packet == t[id].packet && c.used == t[id].used && c.records == t[id].records) || (c.packet == [] && c.used == 0 && c.records == 0)
    ensures AllWellPacked(l, t[id := c], lost + Serials(Waiting(t, id))) && Sends(t, t[id := c], {id})
  {
  }

  lemma TakenKeeps(l: Limits, t: Contexts, lost: set<nat>, id: nat, c: Context)
    requires AllWellPacked(l, t, lost) && id in t && c.setup == t[id].setup && !c.failed && !t[id].failed && c.uncertain == t[id].uncertain
    requires c.deferredFault == t[id].deferredFault
    requires c.packet == [] && c.used == 0 && c.records == 0
    ensures AllWellPacked(l, t[id := c], lost) && Sends(t, t[id := c], {id})
  {
  }

  /** Outcomes reported for other contexts do not change what this request does. */
  lemma SendsAfterMarks(t: Contexts, t1: Contexts, t2: Contexts, ids: set<nat>)
    requires Sends(t, t1, {}) && Sends(t1, t2, ids)
    ensures Sends(t, t2, ids)
  {
  }

  lemma SentAfterMarks(log: Log, t: Contexts, t1: Contexts, log2: Log, t2: Contexts, id: nat)
    requires Sends(t, t1, {}) && Sent(log, t1, log2, t2, id)
    ensures Sent(log, t, log2, t2, id)
  {
    SendsAfterMarks(t, t1, t2, {id});
    assert Waiting(t1, id) == Waiting(t, id) && Outcome(t1, t2, id) == Outcome(t, t2, id);
  }

  /** A context with nothing to send, or that failed before, has settled. */
  lemma Untouched(l: Limits, t: Contexts, lost: set<nat>, id: nat)
    requires AllWellPacked(l, t, lost) && id in t
    ensures Sends(t, t, {}) && (t[id].failed || t[id].used == 0 ==> Sends(t, t, {id}))
    ensures LostOf(t, t, id) == {} && (t[id].used == 0 ==> t[id].packet == [])
  {
  }

  lemma FaultTaken(t: Contexts, id: nat)
    requires id in t
    ensures var t1 := t[id := t[id].(deferredFault := false, failed := t[id].failed || t[id].deferredFault)];
            if t1[id].failed then Sends(t, t1, {id}) else Sends(t, t1, {})
  {
  }

  /** The released context's flush, then the own one: neither forgets a reported failure of the other. */
  lemma FaultsTaken(log: Log, t: Contexts, log1: Log, t1: Contexts, log2: Log, t2: Contexts, released: nat, id: nat, taken: bool)
    requires 0 !in t && (if released == 0 || released == id then t1 == t else Sent(log, t, log1, t1, released) && TakesFault(t, t1, released))
    requires Sent(log1, t1, log2, t2, id) && (taken ==> TakesFault(t1, t2, id))
    ensures TakesFault(t, t2, if released == id then 0 else released) && (taken ==> TakesFault(t, t2, id))
  {
  }

  lemma EntryKept(t: Contexts, t2: Contexts, id: nat)
    requires Sends(t, t2, {}) && id in t
    ensures id in t2 && t2[id].packet == t[id].packet && t2[id].failed == t[id].failed
  {
  }

  lemma EntryWellPacked(l: Limits, t: Contexts, lost: set<nat>, id: nat)
    requires AllWellPacked(l, t, lost) && id in t
    ensures WellPacked(l, id, t[id], lost)
  {
  }

  // ---- What recording, switching and releasing do ----

  ghost predicate SameContexts(t: Contexts, t2: Contexts) {
    t2.Keys == t.Keys && forall x :: x in t ==> t2[x].setup == t[x].setup
  }

  function Appended(c: Context, e: Entry): Context {
    c.(packet := c.packet + [e], used := c.used + e.words, records := c.records + 1)
  }

  lemma AppendFits(l: Limits, t: Contexts, lost: set<nat>, id: nat, e: Entry)
    requires AllWellPacked(l, t, lost) && id in t && !t[id].failed && e.context == id && e.words > 0
    requires t[id].used + e.words <= l.words && t[id].records < l.records
    ensures AllWellPacked(l, t[id := Appended(t[id], e)], lost)
  {
    var packet := t[id].packet + [e];
    assert packet[..|packet| - 1] == t[id].packet;
  }

  lemma BehindIsOther(l: Limits, t: Contexts, lost: set<nat>, released: nat, id: nat, current: nat)
    requires AllWellPacked(l, t, lost)
    ensures NoneOf(Behind(t, released, id, current), id)
  {
  }

  lemma WaitingAppended(t: Contexts, id: nat, e: Entry, released: nat, current: nat)
    requires id in t && !t[id].failed
    ensures var t2 := t[id := Appended(t[id], e)];
            && Waiting(t2, id) == Waiting(t, id) + [e]
            && (released != id ==> Waiting(t2, released) == Waiting(t, released))
            && Behind(t2, released, id, current) == Behind(t, released, id, current)
  {
  }

  /** A new record joins the line behind what its context and the released one still have to send. */
  lemma RecordKeepsLine(l: Limits, log: Log, t: Contexts, released: nat, id: nat, current: nat, e: Entry)
    requires AllWellPacked(l, t, log.lost) && id in t && !t[id].failed && e.context == id && e.serial == |log.issued|
    requires LineAccounted(log, t, released, id, current)
    ensures var behind, t2 := Behind(t, released, id, current), t[id := Appended(t[id], e)];
            var log2 := log.(issued := log.issued + [e], overtook := log.overtook || behind != []);
            && LineAccounted(log2, t2, released, id, current)
            && (behind != [] ==> !Increasing(Line(log2, t2, released, id, current)))
  {
    hide Ledger, AllWellPacked, Line, Behind, Waiting, Increasing, NoneOf;
    var t2 := t[id := Appended(t[id], e)];
    var first := if released == id then 0 else released;
    assert 0 !in t && 0 !in t2 by { ZeroIsNone(l, t, log.lost); }
    LineParts(log, t, released, id, current);
    WaitingAppended(t, id, e, released, current);
    WaitingZero(t);
    WaitingZero(t2);
    BehindIsOther(l, t, log.lost, released, id, current);
    var before, behind := log.accepted + Waiting(t, first) + Waiting(t, id), Behind(t, released, id, current);
    IssueInserts(log.issued, before, behind, log.lost, log.overtook, e);
    var log2 := log.(issued := log.issued + [e], overtook := log.overtook || behind != []);
    LineParts(log2, t2, released, id, current);
    Regroup(log.accepted + Waiting(t, first), Waiting(t, id), e, behind);
    AppendLeavesLine(t, log.lost, released, id, current, e);
  }

  lemma Regroup(a: seq<Entry>, c: seq<Entry>, e: Entry, b: seq<Entry>)
    ensures a + (c + [e]) + b == a + c + [e] + b
  {
  }

  lemma ZeroIsNone(l: Limits, t: Contexts, lost: set<nat>)
    requires AllWellPacked(l, t, lost)
    ensures 0 !in t
  {
  }

  lemma AppendLeavesLine(t: Contexts, lost: set<nat>, released: nat, id: nat, current: nat, e: Entry)
    requires OnlyLineWaits(t, lost, released, id, current) && id in t
    ensures OnlyLineWaits(t[id := Appended(t[id], e)], lost, released, id, current)
  {
    var t2 := t[id := Appended(t[id], e)];
    forall x | Waiting(t2, x) != []
      ensures x == released || x == id || x == current || Stranded(t2, x, lost)
    {
      assert x != id ==> Waiting(t, x) == Waiting(t2, x);
    }
  }

  /** Another context takes over submitting; neither holds records outside the line. */
  lemma ActorMoves(log: Log, t: Contexts, released: nat, a: nat, b: nat, current: nat)
    requires 0 !in t && LineAccounted(log, t, released, a, current)
    requires Waiting(t, a) == [] || a == released || a == current
    requires Waiting(t, b) == [] || b == released || b == current
    requires released == 0 || released != current
    ensures LineAccounted(log, t, released, b, current)
  {
    hide Ledger;
    assert Line(log, t, released, a, current) == Line(log, t, released, b, current);
  }

  /** The current context stops being current with nothing left to send, or as the released one. */
  lemma UnbindKeeps(log: Log, t: Contexts, released: nat, current: nat)
    requires 0 !in t && LineAccounted(log, t, released, current, current) && (Waiting(t, current) == [] || current == released)
    ensures LineAccounted(log, t, released, 0, 0)
  {
    hide Ledger;
    assert Line(log, t, released, current, current) == Line(log, t, released, 0, 0);
  }

  /** Leaving a context inside Begin/End strands its records. */
  lemma StrandKeeps(l: Limits, log: Log, t: Contexts, released: nat, current: nat)
    requires AllWellPacked(l, t, log.lost) && LineAccounted(log, t, released, current, current) && current in t && t[current].setup.inBegin
    requires current != released
    ensures LineAccounted(log.(lost := log.lost + Serials(Waiting(t, current))), t, released, 0, 0)
  {
    hide Ledger, WellPacked, Serials;
    var ahead := log.accepted + Waiting(t, released);
    assert Line(log, t, released, current, current) == ahead + Waiting(t, current) + [];
    DropLoses(log.issued, ahead, Waiting(t, current), [], log.lost, log.overtook);
    assert Line(log, t, released, 0, 0) == ahead + [];
  }

  /** The context that becomes current continues its own packet. */
  lemma BindKeeps(log: Log, t: Contexts, released: nat, id: nat)
    requires 0 !in t && LineAccounted(log, t, released, id, 0)
    ensures LineAccounted(log, t, if released == id then 0 else released, id, id)
  {
    hide Ledger;
    assert Line(log, t, released, id, 0) == Line(log, t, if released == id then 0 else released, id, id);
  }

  /** The older released packet is next in line once its place is given up. */
  lemma ReleasedActs(log: Log, t: Contexts, released: nat, current: nat)
    requires 0 !in t && LineAccounted(log, t, released, current, current) && released != current
    ensures LineAccounted(log, t, 0, released, current)
  {
    hide Ledger, Waiting;
    assert Waiting(t, 0) == [] by { WaitingZero(t); }
    var a, c := Waiting(t, released), Waiting(t, current);
    assert Ahead(t, released, current) == a + c && Behind(t, released, current, current) == [];
    assert Ahead(t, 0, released) == a && Behind(t, 0, released, current) == c;
    assert log.accepted + (a + c) + [] == log.accepted + a + c;
    assert Line(log, t, released, current, current) == Line(log, t, 0, released, current);
  }

  lemma CurrentReleased(log: Log, t: Contexts, actor: nat, current: nat)
    requires 0 !in t && LineAccounted(log, t, 0, actor, current) && (Waiting(t, actor) == [] || actor == current)
    ensures LineAccounted(log, t, current, current, current)
  {
    hide Ledger;
    assert Line(log, t, 0, actor, current) == Line(log, t, current, current, current);
  }

  /** Discarding a packet that is in no line, and changing a context's setup, leave the books alone. */
  lemma UnlinedChange(l: Limits, log: Log, t: Contexts, released: nat, actor: nat, current: nat, id: nat, c: Context)
    requires AllWellPacked(l, t, log.lost) && id in t && LineAccounted(log, t, released, actor, current)
    requires WellPacked(l, id, c, log.lost) && Waiting(t[id := c], id) == Waiting(t, id)
    requires c.setup.inBegin == t[id].setup.inBegin || id == released || id == actor || id == current || Waiting(t, id) == []
    ensures AllWellPacked(l, t[id := c], log.lost) && LineAccounted(log, t[id := c], released, actor, current)
  {
    hide Ledger, WellPacked;
    var t2 := t[id := c];
    assert forall x :: Waiting(t2, x) == Waiting(t, x);
    assert Line(log, t2, released, actor, current) == Line(log, t, released, actor, current);
  }

  lemma FlushedSame(l: Limits, log: Log, t: Contexts, released: nat, log2: Log, t2: Contexts, id: nat)
    requires AllWellPacked(l, t2, log2.lost) && Flushed(log, t, released, log2, t2, id) && id in t
    ensures SameContexts(t, t2) && Waiting(t2, id) == []
    ensures !t2[id].failed ==> t2[id].packet == [] && t2[id].used == 0 && t2[id].records == 0
    ensures log2.issued == log.issued && log2.overtook == log.overtook
  {
  }

  lemma FlushedBehind(log: Log, t: Contexts, released: nat, log2: Log, t2: Contexts, id: nat, current: nat)
    requires 0 !in t && Flushed(log, t, released, log2, t2, id)
    ensures Behind(t2, 0, id, current) == Behind(t, released, id, current)
  {
    BehindStays(t, released, t2, id, current);
  }

  lemma ClearedFits(l: Limits, id: nat, c: Context, lost: set<nat>)
    requires c.packet == [] && c.used == 0 && c.records == 0 && !c.failed && !c.uncertain
    ensures WellPacked(l, id, c, lost)
  {
  }

  lemma SameBehind(t: Contexts, id: nat, c: Context, released: nat, current: nat)
    requires id in t
    ensures Behind(t[id := c], released, id, current) == Behind(t, released, id, current)
  {
  }

  /** Only the setup of a context in the line changes. */
  lemma SetupChange(l: Limits, log: Log, t: Contexts, released: nat, actor: nat, current: nat, id: nat, c: Context)
    requires AllWellPacked(l, t, log.lost) && id in t && LineAccounted(log, t, released, actor, current) && c == t[id].(setup := c.setup)
    requires c.setup.inBegin == t[id].setup.inBegin || id == released || id == actor || id == current || Waiting(t, id) == []
    ensures AllWellPacked(l, t[id := c], log.lost) && LineAccounted(log, t[id := c], released, actor, current)
  {
    hide LineAccounted;
    EntryWellPacked(l, t, log.lost, id);
    UnlinedChange(l, log, t, released, actor, current, id, c);
  }

  /** Between API calls: records wait only in the released and the current context, which have drawables. */
  ghost predicate BetweenCalls(l: Limits, log: Log, t: Contexts, released: nat, current: nat, nextId: nat) {
    && AllWellPacked(l, t, log.lost) && LineAccounted(log, t, released, current, current)
    && (current != 0 ==> current in t && t[current].setup.drawable)
    && (released != 0 ==> released in t && t[released].setup.drawable && released != current)
    && forall id :: id in t ==> id <= nextId
  }

  lemma CallEnds(l: Limits, log: Log, t: Contexts, released: nat, log2: Log, t2: Contexts, released2: nat, current: nat, nextId: nat)
    requires BetweenCalls(l, log, t, released, current, nextId) && SameContexts(t, t2) && (released2 == 0 || released2 == released)
    requires AllWellPacked(l, t2, log2.lost) && LineAccounted(log2, t2, released2, current, current)
    ensures BetweenCalls(l, log2, t2, released2, current, nextId)
  {
  }

  ghost predicate FrontOnly(t: Contexts, t2: Contexts) {
    t2.Keys == t.Keys && forall x :: x in t ==> t2[x].setup == t[x].setup || t2[x].setup == t[x].setup.(frontDirty := false)
  }

  lemma SameSetup(t: Contexts, id: nat)
    requires id in t && !t[id].setup.frontDirty
    ensures t == t[id := t[id].(setup := t[id].setup.(frontDirty := false))]
  {
  }

  lemma SetupWaiting(t: Contexts, id: nat, c: Context)
    requires id in t && c == t[id].(setup := c.setup)
    ensures Waiting(t[id := c], id) == Waiting(t, id)
  {
  }

  lemma FailedWaits(t: Contexts, id: nat)
    requires id in t
    ensures t[id].failed ==> Waiting(t, id) == []
  {
  }

  lemma EmptyWaits(t: Contexts, id: nat)
    requires id in t
    ensures t[id].packet == [] ==> Waiting(t, id) == []
  {
  }

  lemma NothingBehind(t: Contexts, released: nat, current: nat)
    ensures Behind(t, released, current, current) == []
  {
  }

  ghost predicate ReleasedOwns(t: Contexts, released: nat) {
    released != 0 ==> released in t && t[released].setup.drawable
  }

  /** The current context is about to stop being current. */
  ghost predicate Leaving(l: Limits, log: Log, t: Contexts, released: nat, current: nat, nextId: nat) {
    && AllWellPacked(l, t, log.lost) && LineAccounted(log, t, released, current, current) && current in t
    && (Waiting(t, current) == [] || current == released)
    && ReleasedOwns(t, released) && forall id :: id in t ==> id <= nextId
  }

  lemma LeavingLeaves(l: Limits, log: Log, t: Contexts, released: nat, current: nat, nextId: nat)
    requires Leaving(l, log, t, released, current, nextId)
    ensures BetweenCalls(l, log, t, released, 0, nextId)
  {
    hide LineAccounted;
    UnbindKeeps(log, t, released, current);
  }

  lemma CurrentThere(l: Limits, log: Log, t: Contexts, released: nat, current: nat, nextId: nat)
    requires BetweenCalls(l, log, t, released, current, nextId) && current != 0
    ensures current in t && t[current].setup.drawable
  {
  }

  lemma NothingToRelease(l: Limits, log: Log, t: Contexts, released: nat, current: nat, nextId: nat)
    requires BetweenCalls(l, log, t, released, current, nextId) && current != 0 && Waiting(t, current) == []
    ensures Leaving(l, log, t, released, current, nextId)
  {
  }

  lemma BeginStrands(l: Limits, log: Log, t: Contexts, released: nat, current: nat, nextId: nat)
    requires BetweenCalls(l, log, t, released, current, nextId) && current != 0 && t[current].setup.inBegin
    ensures BetweenCalls(l, log.(lost := log.lost + Serials(Waiting(t, current))), t, released, 0, nextId)
  {
    hide LineAccounted;
    StrandKeeps(l, log, t, released, current);
    MoreLost(l, t, log.lost, log.lost + Serials(Waiting(t, current)));
  }

  lemma MoreLost(l: Limits, t: Contexts, lost: set<nat>, lost2: set<nat>)
    requires AllWellPacked(l, t, lost) && lost <= lost2
    ensures AllWellPacked(l, t, lost2)
  {
  }

  /** The old released packet is gone; the context that was current takes its place. */
  lemma ReleasePlace(l: Limits, log: Log, t: Contexts, released: nat, log2: Log, t2: Contexts, current: nat, nextId: nat)
    requires BetweenCalls(l, log, t, released, current, nextId) && current != 0
    requires if released == 0 then log2 == log && t2 == t else
               Flushed(log, t, 0, log2, t2, released) && LineAccounted(log2, t2, 0, released, current) && AllWellPacked(l, t2, log2.lost)
    ensures Leaving(l, log2, t2, current, current, nextId)
  {
    hide LineAccounted, WellPacked;
    if released == 0 {
      NowReleased(log, t, 0, current, current);
    } else {
      FlushedSame(l, log, t, 0, log2, t2, released);
      NowReleased(log2, t2, 0, released, current);
    }
  }

  lemma NowReleased(log: Log, t: Contexts, released: nat, actor: nat, current: nat)
    requires 0 !in t && released == 0 && LineAccounted(log, t, 0, actor, current) && (Waiting(t, actor) == [] || actor == current)
    ensures LineAccounted(log, t, current, current, current)
  {
    hide LineAccounted;
    CurrentReleased(log, t, actor, current);
  }

  /** A context is about to become current; none is. */
  ghost predicate Entering(l: Limits, log: Log, t: Contexts, released: nat, id: nat, nextId: nat) {
    && AllWellPacked(l, t, log.lost) && LineAccounted(log, t, released, id, 0) && id in t
    && (Waiting(t, id) == [] || id == released)
    && ReleasedOwns(t, released) && forall x :: x in t ==> x <= nextId
  }

  lemma EnteringStarts(l: Limits, log: Log, t: Contexts, released: nat, id: nat, nextId: nat)
    requires BetweenCalls(l, log, t, released, 0, nextId) && id in t && !t[id].setup.inBegin
    ensures Entering(l, log, t, released, id, nextId)
  {
    hide Ledger, Line, WellPacked;
    assert Waiting(t, id) != [] ==> id == released || Stranded(t, id, log.lost);
    ActorMoves(log, t, released, 0, id, 0);
  }

  lemma EnteringFails(l: Limits, log: Log, t: Contexts, released: nat, id: nat, nextId: nat)
    requires Entering(l, log, t, released, id, nextId)
    ensures BetweenCalls(l, log, t, released, 0, nextId)
  {
    hide LineAccounted;
    ActorMoves(log, t, released, id, 0, 0);
  }

  lemma EnteringSucceeds(l: Limits, log: Log, t: Contexts, released: nat, id: nat, nextId: nat)
    requires Entering(l, log, t, released, id, nextId) && t[id].setup.drawable
    ensures BetweenCalls(l, log, t, if released == id then 0 else released, id, nextId)
  {
    hide LineAccounted;
    BindKeeps(log, t, released, id);
  }

  lemma EnteringAfter(l: Limits, log: Log, t: Contexts, released: nat, log2: Log, t2: Contexts, released2: nat, id: nat, nextId: nat)
    requires Entering(l, log, t, released, id, nextId) && SameContexts(t, t2) && (released2 == 0 || released2 == released)
    requires AllWellPacked(l, t2, log2.lost) && LineAccounted(log2, t2, released2, id, 0) && (Waiting(t2, id) == [] || id == released2)
    ensures Entering(l, log2, t2, released2, id, nextId)
  {
  }

  lemma EnteringSetup(l: Limits, log: Log, t: Contexts, released: nat, id: nat, nextId: nat, u: Setup)
    requires Entering(l, log, t, released, id, nextId) && (u.drawable || id != released)
    ensures Entering(l, log, t[id := t[id].(setup := u)], released, id, nextId)
  {
    hide LineAccounted;
    SetupChange(l, log, t, released, id, 0, id, t[id].(setup := u));
    SetupWaiting(t, id, t[id].(setup := u));
  }

  lemma EnteringParts(l: Limits, log: Log, t: Contexts, released: nat, id: nat, nextId: nat)
    requires Entering(l, log, t, released, id, nextId)
    ensures AllWellPacked(l, t, log.lost) && LineAccounted(log, t, released, id, 0) && id in t && (released != 0 ==> released in t)
    ensures id != 0 && Behind(t, released, id, 0) == []
    ensures t[id].failed || t[id].packet == [] || id == released
    ensures t[id].uncertain ==> t[id].failed
    ensures id == released ==> t[id].setup.drawable
  {
  }

  lemma SameSetups(t: Contexts, t2: Contexts, id: nat)
    requires SameContexts(t, t2) && id in t
    ensures id in t2 && t2[id].setup == t[id].setup
  {
  }

  lemma CallStarts(l: Limits, log: Log, t: Contexts, released: nat, current: nat, nextId: nat)
    requires BetweenCalls(l, log, t, released, current, nextId)
    ensures AllWellPacked(l, t, log.lost) && LineAccounted(log, t, released, current, current) && (released != 0 ==> released in t)
  {
  }

  /** A failure reported for a context that is not current loses what it still had to send. */
  lemma FaultLoses(l: Limits, log: Log, t: Contexts, released: nat, id: nat, nextId: nat)
    requires BetweenCalls(l, log, t, released, 0, nextId) && id in t
    ensures var t2 := Faulted(t, id);
            AllWellPacked(l, t2, log.lost + LostOf(t, t2, id)) ==>
              BetweenCalls(l, log.(lost := log.lost + LostOf(t, t2, id)), t2, released, 0, nextId)
  {
    hide Ledger, WellPacked, Serials;
    var t2 := Faulted(t, id);
    assert forall x :: x != id ==> Waiting(t2, x) == Waiting(t, x);
    var a, r := log.accepted, Waiting(t, released);
    assert Line(log, t, released, 0, 0) == a + r + [];
    AcceptedOrLost(log.issued, a, r, [], log.lost, log.overtook, released == id && t2[id].failed);
    assert Line(log.(lost := log.lost + LostOf(t, t2, id)), t2, released, 0, 0) == a + Waiting(t2, released) + [];
    if released != id {
      UnlinedLoss(l, t, log.lost, released, id, 0);
      assert log.lost + LostOf(t, t2, id) == log.lost;
    }
  }

  function Faulted(t: Contexts, id: nat): Contexts
    requires id in t
  {
    t[id := t[id].(deferredFault := false, failed := t[id].failed || t[id].deferredFault)]
  }

  /** What waits outside the line was lost before. */
  lemma UnlinedLoss(l: Limits, t: Contexts, lost: set<nat>, released: nat, id: nat, current: nat)
    requires OnlyLineWaits(t, lost, released, current, current) && id != released && id != current
    ensures Serials(Waiting(t, id)) <= lost
  {
    assert Waiting(t, id) != [] ==> Stranded(t, id, lost);
  }

  /** A context apart from the current one takes over submitting, or gives it back. */
  lemma AsideStarts(l: Limits, log: Log, t: Contexts, released: nat, id: nat, current: nat, nextId: nat)
    requires BetweenCalls(l, log, t, released, current, nextId) && id in t && (Waiting(t, id) == [] || id == released)
    ensures LineAccounted(log, t, released, id, current)
  {
    hide LineAccounted;
    ActorMoves(log, t, released, current, id, current);
  }

  lemma AsideEnds(l: Limits, log: Log, t: Contexts, released: nat, log2: Log, t2: Contexts, released2: nat, id: nat, current: nat, nextId: nat)
    requires BetweenCalls(l, log, t, released, current, nextId) && SameContexts(t, t2) && (released2 == 0 || released2 == released)
    requires AllWellPacked(l, t2, log2.lost) && LineAccounted(log2, t2, released2, id, current) && Waiting(t2, id) == []
    ensures BetweenCalls(l, log2, t2, released2, current, nextId)
  {
    hide LineAccounted;
    ActorMoves(log2, t2, released2, id, current, current);
  }

  lemma CurrentIsBehind(l: Limits, log: Log, t: Contexts, released: nat, id: nat, current: nat, nextId: nat)
    requires BetweenCalls(l, log, t, released, current, nextId) && id != current
    ensures Behind(t, released, id, current) == Waiting(t, current)
  {
  }

  /** A healthy context outside Begin/End waits only while it is current or released. */
  lemma WaitsWhere(l: Limits, log: Log, t: Contexts, released: nat, id: nat, current: nat, nextId: nat)
    requires BetweenCalls(l, log, t, released, current, nextId) && id in t && id != current
    ensures Waiting(t, id) == [] || id == released || t[id].setup.inBegin
  {
    assert Waiting(t, id) != [] ==> id == released || Stranded(t, id, log.lost);
  }

  lemma SetupBetweenCalls(l: Limits, log: Log, t: Contexts, released: nat, id: nat, current: nat, nextId: nat, u: Setup)
    requires BetweenCalls(l, log, t, released, current, nextId) && id in t
    requires u.drawable || (id != current && id != released)
    requires u.inBegin == t[id].setup.inBegin || id == current || Waiting(t, id) == []
    ensures BetweenCalls(l, log, t[id := t[id].(setup := u)], released, current, nextId)
  {
    hide LineAccounted;
    SetupChange(l, log, t, released, current, current, id, t[id].(setup := u));
  }

  function Erased(c: Context): Context {
    c.(packet := [], used := 0, records := 0, setup := c.setup.(deleting := true, inBegin := false))
  }

  /** An unfinished batch is never replayed: a deleted context's own records go. */
  lemma EraseKeeps(l: Limits, log: Log, t: Contexts, released: nat, id: nat, current: nat, nextId: nat)
    requires BetweenCalls(l, log, t, released, current, nextId) && id in t && id != current
    ensures BetweenCalls(l, log.(lost := log.lost + Serials(Waiting(t, id))), t[id := Erased(t[id])],
                         if released == id then 0 else released, current, nextId)
  {
    hide Ledger, Serials;
    var lost2 := log.lost + Serials(Waiting(t, id));
    EraseLedger(l, log, t, released, id, current);
    EraseLeavesLine(t, log.lost, lost2, released, id, current);
    EraseFits(l, t, log.lost, lost2, id);
  }

  lemma EraseLeavesLine(t: Contexts, lost: set<nat>, lost2: set<nat>, released: nat, id: nat, current: nat)
    requires OnlyLineWaits(t, lost, released, current, current) && id in t && lost <= lost2
    ensures OnlyLineWaits(t[id := Erased(t[id])], lost2, if released == id then 0 else released, current, current)
  {
    var t2 := t[id := Erased(t[id])];
    forall x | Waiting(t2, x) != []
      ensures x == (if released == id then 0 else released) || x == current || Stranded(t2, x, lost2)
    {
      assert x != id && Waiting(t, x) == Waiting(t2, x);
    }
  }

  lemma EraseFits(l: Limits, t: Contexts, lost: set<nat>, lost2: set<nat>, id: nat)
    requires AllWellPacked(l, t, lost) && id in t && lost <= lost2
    ensures AllWellPacked(l, t[id := Erased(t[id])], lost2)
  {
  }

  lemma EraseLedger(l: Limits, log: Log, t: Contexts, released: nat, id: nat, current: nat)
    requires Ledger(log.issued, Line(log, t, released, current, current), log.lost, log.overtook)
    requires id in t && 0 !in t && id != current && OnlyLineWaits(t, log.lost, released, current, current)
    ensures Ledger(log.issued, Line(log, t[id := Erased(t[id])], if released == id then 0 else released, current, current),
                   log.lost + Serials(Waiting(t, id)), log.overtook)
  {
    hide Ledger, Serials;
    var t2 := t[id := Erased(t[id])];
    var a, c := log.accepted, if current == released then [] else Waiting(t, current);
    if released == id {
      assert Line(log, t, released, current, current) == a + Waiting(t, id) + c;
      DropLoses(log.issued, a, Waiting(t, id), c, log.lost, log.overtook);
      assert Line(log, t2, 0, current, current) == a + c;
    } else {
      UnlinedLoss(l, t, log.lost, released, id, current);
      assert log.lost + Serials(Waiting(t, id)) == log.lost;
      assert Line(log, t2, released, current, current) == Line(log, t, released, current, current);
    }
  }

  lemma RemoveKeeps(l: Limits, log: Log, t: Contexts, released: nat, id: nat, current: nat, nextId: nat)
    requires BetweenCalls(l, log, t, released, current, nextId) && id in t && id != current && id != released && Waiting(t, id) == []
    ensures BetweenCalls(l, log, t - {id}, released, current, nextId)
  {
    hide Ledger, WellPacked;
    var t2 := t - {id};
    assert forall x :: Waiting(t2, x) == Waiting(t, x);
    assert Line(log, t2, released, current, current) == Line(log, t, released, current, current);
  }

  function Blank(view: View): Context {
    Context([], 0, 0, false, false, false, Setup(false, false, false, false, false, false, view))
  }

  lemma AddKeeps(l: Limits, log: Log, t: Contexts, released: nat, current: nat, nextId: nat, view: View)
    requires BetweenCalls(l, log, t, released, current, nextId)
    ensures nextId + 1 !in t && BetweenCalls(l, log, t[nextId + 1 := Blank(view)], released, current, nextId + 1)
  {
    hide Ledger, WellPacked;
    var t2 := t[nextId + 1 := Blank(view)];
    assert forall x :: Waiting(t2, x) == Waiting(t, x);
    assert WellPacked(l, nextId + 1, Blank(view), log.lost) by { ClearedFits(l, nextId + 1, Blank(view), log.lost); }
    assert Line(log, t2, released, current, current) == Line(log, t, released, current, current);
  }

  lemma CurrentIsThere(l: Limits, log: Log, t: Contexts, released: nat, current: nat, nextId: nat)
    requires BetweenCalls(l, log, t, released, current, nextId)
    ensures current == 0 || (current in t && current <= nextId)
  {
  }

  lemma ReleasedDrawn(l: Limits, log: Log, t: Contexts, released: nat, current: nat, nextId: nat)
    requires BetweenCalls(l, log, t, released, current, nextId)
    ensures ReleasedOwns(t, released) && 0 !in t
  {
  }

  lemma ReleasedIsOther(l: Limits, log: Log, t: Contexts, released: nat, current: nat, nextId: nat)
    requires BetweenCalls(l, log, t, released, current, nextId)
    ensures 0 !in t && (released != 0 ==> released != current)
  {
  }

  lemma UncertainFailed(l: Limits, log: Log, t: Contexts, released: nat, current: nat, nextId: nat, id: nat)
    requires BetweenCalls(l, log, t, released, current, nextId) && id in t
    ensures t[id].uncertain ==> t[id].failed
  {
  }

  lemma BlankWaits(t: Contexts, id: nat, view: View, current: nat)
    ensures Waiting(t[id := Blank(view)], id) == []
    ensures current != id ==> Waiting(t[id := Blank(view)], current) == Waiting(t, current)
  {
  }

  /** Of the contexts other than `id` only the released one sends anything, and none gains anything. */
  ghost predicate OthersKeep(t: Contexts, t2: Contexts, id: nat, released: nat) {
    forall x :: x != id ==> Waiting(t2, x) == Waiting(t, x) || (x == released != 0 && Waiting(t2, x) == [])
  }

  lemma FlushedOthers(log: Log, t: Contexts, released: nat, log2: Log, t2: Contexts, id: nat)
    requires Flushed(log, t, released, log2, t2, id) && 0 !in t
    ensures OthersKeep(t, t2, id, released)
  {
  }

  lemma OthersSame(t: Contexts, c: Context, id: nat, released: nat)
    ensures OthersKeep(t, t, id, released) && (id in t ==> OthersKeep(t, t[id := c], id, released))
  {
  }

  lemma OthersThen(t: Contexts, t1: Contexts, t2: Contexts, id: nat, released: nat, first: nat, second: nat)
    requires OthersKeep(t, t1, id, first) && OthersKeep(t1, t2, id, second) && first in {0, released} && second in {0, released}
    ensures OthersKeep(t, t2, id, released)
  {
  }

  lemma KeepsWaiting(t: Contexts, c: Context, id: nat, current: nat)
    requires current != id
    ensures Waiting(t[id := c], current) == Waiting(t - {id}, current) == Waiting(t, current)
  {
  }

  lemma WaitsNothing(t: Contexts, id: nat)
    requires id in t && Waiting(t, id) == []
    ensures t[id].failed || t[id].packet == []
  {
  }

  lemma OtherWaits(t: Contexts, t2: Contexts, id: nat, released: nat, current: nat)
    requires OthersKeep(t, t2, id, released) && current != id && (released != 0 ==> released != current)
    ensures Waiting(t2, current) == Waiting(t, current)
  {
  }

  lemma ErasedWaits(t: Contexts, id: nat, current: nat)
    requires id in t && id != current
    ensures Waiting(t[id := Erased(t[id])], id) == [] && Waiting(t[id := Erased(t[id])], current) == Waiting(t, current)
  {
  }

  /** The current context fails with nothing waiting. */
  lemma CurrentFails(l: Limits, log: Log, t: Contexts, released: nat, current: nat, nextId: nat)
    requires BetweenCalls(l, log, t, released, current, nextId) && current != 0 && Waiting(t, current) == []
    ensures BetweenCalls(l, log, t[current := t[current].(failed := true)], released, current, nextId)
  {
    hide Ledger, WellPacked;
    var t2 := t[current := t[current].(failed := true)];
    assert forall x :: Waiting(t2, x) == Waiting(t, x);
    assert Line(log, t2, released, current, current) == Line(log, t, released, current, current);
    EntryWellPacked(l, t, log.lost, current);
    assert WellPacked(l, current, t2[current], log.lost) by { FailedWellPacked(l, current, t[current], log.lost); }
  }

  lemma FailedWellPacked(l: Limits, id: nat, c: Context, lost: set<nat>)
    requires WellPacked(l, id, c, lost) && (c.failed || c.packet == [])
    ensures WellPacked(l, id, c.(failed := true), lost)
  {
  }

  /**
   * What the driver took and what still waits: records of a context stay in
   * issue order, none comes twice, and each issued record is there or lost;
   * unless a control record overtook the current context's, all are in issue
   * order, and then nothing lost means exactly what was issued.
   */
  ghost predicate SubmittedInOrder(log: Log, waiting: seq<Entry>) {
    && StreamOrdered(log.accepted + waiting) && Genuine(log.issued, log.accepted + waiting)
    && Kept(log.issued, log.accepted + waiting, log.lost)
    && (!log.overtook ==> Increasing(log.accepted + waiting))
    && (!log.overtook && log.lost == {} ==> log.accepted + waiting == log.issued)
  }

  lemma LineInOrder(l: Limits, log: Log, t: Contexts, released: nat, current: nat, nextId: nat)
    requires BetweenCalls(l, log, t, released, current, nextId)
    ensures SubmittedInOrder(log, Waiting(t, released) + Waiting(t, current))
  {
    hide Genuine, StreamOrdered, Kept, Increasing, AllWellPacked, OnlyLineWaits;
    var waiting := Waiting(t, released) + Waiting(t, current);
    assert log.accepted + waiting == Line(log, t, released, current, current) by {
      WaitingLine(l, log, t, released, current, nextId);
    }
    if !log.overtook && log.lost == {} {
      NothingLostInOrder(log.issued, log.accepted + waiting);
    }
  }

  lemma WaitingLine(l: Limits, log: Log, t: Contexts, released: nat, current: nat, nextId: nat)
    requires BetweenCalls(l, log, t, released, current, nextId)
    ensures log.accepted + (Waiting(t, released) + Waiting(t, current)) == Line(log, t, released, current, current)
  {
    ZeroIsNone(l, t, log.lost);
    WaitingZero(t);
  }

  lemma LimitsHold(l: Limits, t: Contexts, lost: set<nat>)
    requires AllWellPacked(l, t, lost)
    ensures 32 <= l.words && 0 < l.records && forall id :: id in t ==> t[id].records <= l.records
  {
  }
}
