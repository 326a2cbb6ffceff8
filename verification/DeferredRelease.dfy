/**
 * Deferred release and context switching of the frontend
 * (guest/opengl/frontend.cpp, lines 305-457, 706-751, 991-1072, 1437-1585):
 * one issuing thread, any number of contexts, every answer of the driver.
 */
module DeferredRelease {
  import opened SubmissionLedger
  import opened PacketLine
  import opened LossCauses

  /** The window system's part in publishing the front buffer: the window still has the drawable's size; it was presented. */
  datatype Front = Front(matches: bool, presented: bool)

  /** What was drawn to the front buffer is on the screen, or has no window of its size to go to. */
  predicate FrontSettled(dirty: bool, front: Front) {
    dirty && front.matches ==> front.presented
  }

  class Frontend {
    const Limit: Limits
    const Queued: bool
    /** The driver's answers, request by request; Asked counts the requests so far. */
    const Replies: nat -> Reply
    /** The window system's answers, by the requests that precede them. */
    const Fronts: nat -> Front
    var Asked: nat
    var Table: Contexts
    var NextId: nat
    var Released: nat
    var Current: nat
    var History: Log

    constructor (limit: Limits, queued: bool, replies: nat -> Reply, fronts: nat -> Front)
      requires 32 <= limit.words && 0 < limit.records
      ensures Inv() && Table == map[] && Released == Current == 0 && History == Log([], [], {}, false)
      ensures Limit == limit && Queued == queued && Replies == replies && Fronts == fronts && Asked == NextId == 0
    {
      Limit, Queued, Replies, Fronts := limit, queued, replies, fronts;
      Asked, Table, NextId, Released, Current := 0, map[], 0, 0, 0;
      History := Log([], [], {}, false);
    }

    function Stream(id: nat): nat {
      if Queued then id else 0
    }

    ghost function Now(): Moment
      reads this
    {
      Moment(Table, History, Asked, NextId)
    }

    ghost function Stands(): Standing
      reads this
    {
      Standing(Now(), Released, Current)
    }

    /** DeferredFailure: another stream's failed batch is marked on its context. */
    method DeferredFailure(stream: nat)
      requires AllWellPacked(Limit, Table, History.lost)
      modifies this`Table
      ensures Table == if stream in old(Table) then old(Table)[stream := old(Table)[stream].(deferredFault := true)] else old(Table)
    {
      if stream in Table {
        Table := Table[stream := Table[stream].(deferredFault := true)];
      }
    }

    /**
     * A request with its retries (RequestRetry shows that they end): other
     * contexts' failures may be reported before the request's own outcome.
     */
    method Request(stream: nat) returns (ok: bool, known: bool)
      requires AllWellPacked(Limit, Table, History.lost)
      modifies this`Table, this`Asked
      ensures AllWellPacked(Limit, Table, History.lost) && Sends(old(Table), Table, {})
      ensures Asked == old(Asked) + 1 && ok == Replies(old(Asked)).taken && known == Replies(old(Asked)).known
      ensures Marked(old(Table), Table, stream, Replies(old(Asked)).reports)
      ensures StaysCalm(Replies, old(Asked), Asked, old(Table), Table)
    {
      hide AllWellPacked, Sends, Marked;
      ghost var t := Table;
      var r, i := Replies(Asked), 0;
      Asked := Asked + 1;
      MarkedNone(t, stream, r.reports);
      assert r.reports[..0] == [];
      while i < |r.reports| && stream != 0
        invariant i <= |r.reports| && Asked == old(Asked) + 1 && (stream == 0 ==> Table == t)
        invariant Marked(t, Table, stream, r.reports[..i]) && AllWellPacked(Limit, Table, History.lost)
      {
        MarkedOne(t, Table, stream, r.reports[..i], r.reports[i]);
        assert r.reports[..i + 1] == r.reports[..i] + [r.reports[i]];
        if r.reports[i] != stream {
          DeferredFailure(r.reports[i]);
        }
        i := i + 1;
        MarkedKeeps(Limit, t, Table, History.lost, stream, r.reports[..i]);
      }
      assert i == |r.reports| ==> r.reports[..i] == r.reports;
      MarkedKeeps(Limit, t, Table, History.lost, stream, r.reports);
      assert Calm(Replies, old(Asked), Asked) ==> Clean(Replies(old(Asked)));
      ok, known := r.taken, r.known;
    }

    method TakeDeferredFault(id: nat)
      requires AllWellPacked(Limit, Table, History.lost) && id in Table
      modifies this`Table, this`History
      ensures AllWellPacked(Limit, Table, History.lost)
      ensures Table == Faulted(old(Table), id) && NoneWorse(old(Table), Table)
      ensures History == old(History).(lost := old(History).lost + LostOf(old(Table), Table, id))
    {
      var c := Table[id];
      if c.deferredFault {
        FailKeeps(Limit, Table, History.lost, id, c.(deferredFault := false, failed := true));
        History := History.(lost := History.lost + Serials(Waiting(Table, id)));
        Table := Table[id := c.(deferredFault := false, failed := true)];
      } else {
        EntryWellPacked(Limit, Table, History.lost, id);
        assert Table == Table[id := c];
        Untouched(Limit, Table, History.lost, id);
        assert History.lost + LostOf(Table, Table, id) == History.lost;
      }
    }

    /** Flush once nothing is released: the context's own packet. */
    method Send(id: nat, mode: Mode) returns (ok: bool)
      requires AllWellPacked(Limit, Table, History.lost) && id in Table
      modifies this`Table, this`History, this`Asked
      ensures AllWellPacked(Limit, Table, History.lost) && id in Table
      ensures Sent(old(History), old(Table), History, Table, id) && ok == !Table[id].failed
      ensures Submitted(old(Table), Table, id, mode, if mode == Cleanup then 0 else Stream(id), Replies(old(Asked)))
      ensures Asked == old(Asked) + if Submits(old(Table)[id], mode) then 1 else 0
      ensures mode != Cleanup ==> TakesFault(old(Table), Table, id) && !Table[id].deferredFault
      ensures StaysCalm(Replies, old(Asked), Asked, old(Table), Table)
    {
      hide AllWellPacked, Sends, NoneWorse, Calm, Serials, Submitted, Marked, Settled;
      ghost var t, log, asked, stream := Table, History, Asked, if mode == Cleanup then 0 else Stream(id);
      Untouched(Limit, t, log.lost, id);
      StaysCalmSame(Replies, asked, t);
      if mode != Cleanup {
        TakeDeferredFault(id);
        FaultTaken(t, id);
      }
      ghost var t1 := Table;
      assert if t1[id].failed then Sends(t, t1, {id}) else Sends(t, t1, {}) && History.lost == log.lost + {};
      if Table[id].failed {
        Untouched(Limit, t1, History.lost, id);
        SubmittedNothing(t, t1, id, mode, stream, Replies(asked));
        return false;
      }
      EntryKept(t, t1, id);
      if Table[id].used == 0 {
        Untouched(Limit, t1, History.lost, id);
        SendsAfterMarks(t, t1, t1, {id});
        SubmittedNothing(t, t1, id, mode, stream, Replies(asked));
        return true;
      }
      assert History == log by { assert log.lost + {} == log.lost; }
      ok := Ask(id, if mode == Cleanup then 0 else Stream(id), t);
      SubmittedThen(t, t1, Table, id, mode, stream, Replies(asked));
    }

    /** The context's request and what comes of it; `t` are the contexts before a failure was looked for. */
    method Ask(id: nat, stream: nat, ghost t: Contexts) returns (ok: bool)
      requires AllWellPacked(Limit, Table, History.lost) && id in Table && !Table[id].failed
      requires Sends(t, Table, {}) && NoneWorse(t, Table)
      modifies this`Table, this`History, this`Asked
      ensures AllWellPacked(Limit, Table, History.lost) && id in Table
      ensures Sent(old(History), t, History, Table, id) && ok == !Table[id].failed
      ensures AnsweredTo(old(Table), Table, id, stream, Replies(old(Asked))) && Asked == old(Asked) + 1
      ensures StaysCalm(Replies, old(Asked), Asked, t, Table)
    {
      hide AllWellPacked, Sends, NoneWorse, Calm, Serials, Settled;
      ghost var t1, log, asked := Table, History, Asked;
      var known;
      ok, known := Request(stream);
      ghost var t2 := Table;
      SendsAfterMarks(t, t1, t2, {});
      EntryKept(t1, t2, id);
      ok := Settle(id, ok, known);
      SentAfterMarks(log, t, t2, History, Table, id);
      SettledCalm(Replies, asked, t, t1, t2, Table);
    }

    /** The request is over: the packet is gone, and a failure fails the context. */
    method Settle(id: nat, taken: bool, known: bool) returns (ok: bool)
      requires AllWellPacked(Limit, Table, History.lost) && id in Table && !Table[id].failed
      modifies this`Table, this`History
      ensures AllWellPacked(Limit, Table, History.lost) && id in Table && ok == taken
      ensures Sent(old(History), old(Table), History, Table, id) && ok == !Table[id].failed
      ensures taken ==> NoneWorse(old(Table), Table)
      ensures Table == old(Table)[id := Settled(old(Table[id]), taken, known)]
    {
      hide AllWellPacked, Sends, Serials;
      var c := Table[id].(packet := [], used := 0, records := 0);
      if taken {
        History := History.(accepted := History.accepted + Table[id].packet);
        TakenKeeps(Limit, Table, History.lost, id, c);
        assert History.lost + {} == History.lost;
        Table := Table[id := c];
      } else {
        var f := c.(failed := true, uncertain := c.uncertain || !known);
        FailKeeps(Limit, Table, History.lost, id, f);
        History := History.(lost := History.lost + Serials(Waiting(Table, id)));
        Table := Table[id := f];
      }
      return taken;
    }

    /** Flush: the released context's batch first, then the context's own. */
    method Flush(id: nat, mode: Mode) returns (ok: bool)
      requires AllWellPacked(Limit, Table, History.lost) && id in Table && (Released != 0 ==> Released in Table)
      modifies this`Table, this`History, this`Asked, this`Released
      ensures AllWellPacked(Limit, Table, History.lost) && id in Table && Released == 0
      ensures Flushed(old(History), old(Table), old(Released), History, Table, id) && ok == !Table[id].failed
      ensures StaysCalm(Replies, old(Asked), Asked, old(Table), Table)
      ensures old(LineAccounted(History, Table, Released, id, Current)) ==> LineAccounted(History, Table, Released, id, Current)
      ensures TakesFault(old(Table), Table, if old(Released) == id then 0 else old(Released))
      ensures mode != Cleanup ==> TakesFault(old(Table), Table, id) && (ok ==> !Table[id].deferredFault)
      ensures old(LineAccounted(History, Table, Released, id, Current) && Named(Now())) ==>
                if mode == Cleanup then Tracked(Replies, old(Now()), Now(), {}, {}) else Explained(Replies, old(Now()), Now(), {}, {})
      decreases Released != 0, 1
    {
      hide AllWellPacked, Sends, LineAccounted, WellPacked, StaysCalm, Explained, Tracked, Flushed, Named, Sent, Submitted, TakesFault;
      ghost var t, log, released, asked := Table, History, Released, Asked;
      ZeroIsNone(Limit, t, log.lost);
      StaysCalmSame(Replies, asked, t);
      if Released != 0 {
        SubmitReleased(id);
      }
      ghost var t1, log1, asked1 := Table, History, Asked;
      ok := Send(id, mode);
      StaysCalmThen(Replies, asked, asked1, Asked, t, t1, Table);
      FaultsTaken(log, t, log1, t1, History, Table, released, id, mode != Cleanup);
      if released == 0 || released == id {
        SentAlone(log, t, History, Table, released, id);
      } else {
        SentBoth(log, t, log1, t1, History, Table, released, id);
      }
      if LineAccounted(log, t, released, id, Current) {
        FlushKeepsLine(Limit, log, t, released, History, Table, id, Current);
        if Named(old(Now())) && mode == Cleanup {
          TrackedFlushed(Limit, Replies, log, t, asked, released, History, Table, Asked, id, Current, NextId);
        } else if Named(old(Now())) {
          ExplainedFlushed(Limit, Replies, log, t, asked, released, History, Table, Asked, id, Current, NextId);
        }
      }
    }

    method SubmitReleased(id: nat)
      requires AllWellPacked(Limit, Table, History.lost) && id in Table && Released != 0 && Released in Table
      modifies this`Table, this`History, this`Asked, this`Released
      ensures AllWellPacked(Limit, Table, History.lost) && id in Table && Released == 0
      ensures if old(Released) == id then Table == old(Table) && History == old(History)
              else Sent(old(History), old(Table), History, Table, old(Released)) && TakesFault(old(Table), Table, old(Released))
      ensures StaysCalm(Replies, old(Asked), Asked, old(Table), Table)
      decreases Released != 0, 0
    {
      hide AllWellPacked, Sends, LineAccounted, WellPacked, StaysCalm, Explained;
      var released := Released;
      Released := 0;
      StaysCalmSame(Replies, Asked, Table);
      if released != id {
        ghost var t, log := Table, History;
        var ok := Flush(released, Asynchronous);
        ZeroIsNone(Limit, t, log.lost);
        FlushedAlone(log, t, History, Table, released);
        SendsKeys(t, Table, {released});
      }
    }

    /** Record: a record of `8 + words` words joins the packet, after a flush when it does not fit. */
    method Record(id: nat, words: nat) returns (ok: bool)
      requires AllWellPacked(Limit, Table, History.lost) && id in Table && (Released != 0 ==> Released in Table)
      requires LineAccounted(History, Table, Released, id, Current) && Named(Now())
      modifies this`Table, this`History, this`Asked, this`Released
      ensures AllWellPacked(Limit, Table, History.lost) && SameContexts(old(Table), Table) && id in Table
      ensures LineAccounted(History, Table, Released, id, Current) && (Released == 0 || Released == old(Released))
      ensures ok ==> !Table[id].failed && History.issued == old(History).issued + [Entry(|old(History).issued|, id, 8 + words)]
      ensures var e, fits := Entry(|old(History).issued|, id, 8 + words), old(Table[id].used) + 8 + words <= Limit.words && old(Table[id].records) < Limit.records;
              && (ok ==> Table[id].packet == (if fits then old(Table[id].packet) else []) + [e])
              && (ok && fits ==> Table == old(Table)[id := Appended(old(Table)[id], e)] && Asked == old(Asked) && History.accepted == old(History).accepted)
      ensures ok ==> History.overtook == (old(History).overtook || old(Behind(Table, Released, id, Current)) != [])
      ensures ok && old(Behind(Table, Released, id, Current)) != [] ==> !Increasing(Line(History, Table, Released, id, Current))
      ensures !ok ==> History.issued == old(History).issued && History.overtook == old(History).overtook
      ensures ok == (words <= Limit.words - 8 && !Table[id].failed)
      ensures OthersKeep(old(Table), Table, id, old(Released))
      ensures !old(Table[id].failed) && old(Table[id].used) + 8 + words <= Limit.words && old(Table[id].records) < Limit.records ==> ok
      ensures Explained(Replies, old(Now()), Now(), {}, {})
    {
      hide AllWellPacked, LineAccounted, Sends, WellPacked, Behind, Increasing, Line, Flushed, OthersKeep, Explained, StaysCalm, Named;
      LimitsHold(Limit, Table, History.lost);
      ghost var m0 := Now();
      ExplainedNone(Replies, m0);
      ghost var t, log, released := Table, History, Released;
      OthersSame(t, t[id], id, released);
      if Table[id].failed || words > Limit.words - 8 {
        return false;
      }
      ZeroIsNone(Limit, t, log.lost);
      if Table[id].used + 8 + words > Limit.words || Table[id].records == Limit.records {
        ok := Flush(id, Asynchronous);
        FlushedSame(Limit, log, t, released, History, Table, id);
        FlushedBehind(log, t, released, History, Table, id, Current);
        FlushedOthers(log, t, released, History, Table, id);
        if !ok {
          return false;
        }
      }
      LimitsHold(Limit, Table, History.lost);
      ghost var m1 := Now();
      StillNamed(Replies, m0, m1, {}, {});
      Join(id, 8 + words);
      OthersThen(t, m1.table, Table, id, released, released, 0);
      Then(Replies, m0, m1, Now(), {}, {});
      return true;
    }

    /** The record's words are in the packet. */
    method Join(id: nat, words: nat)
      requires AllWellPacked(Limit, Table, History.lost) && id in Table && !Table[id].failed && words > 0
      requires Table[id].used + words <= Limit.words && Table[id].records < Limit.records
      requires LineAccounted(History, Table, Released, id, Current) && Named(Now())
      modifies this`Table, this`History
      ensures AllWellPacked(Limit, Table, History.lost) && SameContexts(old(Table), Table) && id in Table && !Table[id].failed
      ensures LineAccounted(History, Table, Released, id, Current)
      ensures Table == old(Table)[id := Appended(old(Table)[id], Entry(|old(History).issued|, id, words))]
      ensures History == old(History).(issued := old(History).issued + [Entry(|old(History).issued|, id, words)],
                                       overtook := old(History).overtook || old(Behind(Table, Released, id, Current)) != [])
      ensures old(Behind(Table, Released, id, Current)) != [] ==> !Increasing(Line(History, Table, Released, id, Current))
      ensures OthersKeep(old(Table), Table, id, 0)
      ensures Explained(Replies, old(Now()), Now(), {}, {})
    {
      hide AllWellPacked, LineAccounted, Behind, Increasing, Line, OthersKeep, Explained, Named;
      var e := Entry(|History.issued|, id, words);
      AppendFits(Limit, Table, History.lost, id, e);
      RecordKeepsLine(Limit, History, Table, Released, id, Current, e);
      var overtook := History.overtook || Behind(Table, Released, id, Current) != [];
      OthersSame(Table, Appended(Table[id], e), id, 0);
      ExplainedRecord(Replies, Now(), id, e, overtook);
      Table, History := Table[id := Appended(Table[id], e)], History.(issued := History.issued + [e], overtook := overtook);
    }

    /** Control: one record, alone in the packet, sent outside any stream. */
    method Control(id: nat, words: nat) returns (ok: bool)
      requires AllWellPacked(Limit, Table, History.lost) && id in Table && (Released != 0 ==> Released in Table) && Named(Now())
      requires LineAccounted(History, Table, Released, id, Current) && (Table[id].failed || Table[id].packet == []) && words <= 2
      modifies this`Table, this`History, this`Asked, this`Released
      ensures AllWellPacked(Limit, Table, History.lost) && SameContexts(old(Table), Table) && id in Table
      ensures LineAccounted(History, Table, Released, id, Current) && (Released == 0 || Released == old(Released))
      ensures ok ==> !Table[id].failed && Table[id].packet == [] && Released == 0
      ensures !old(Table[id].uncertain) ==> ok == !Table[id].failed
      ensures Waiting(Table, id) == [] && OthersKeep(old(Table), Table, id, old(Released))
      ensures if old(Table[id].uncertain) then !ok && History == old(History)
              else
                && History.issued == old(History).issued + [Entry(|old(History).issued|, id, 8 + words)]
                && History.overtook == (old(History).overtook || old(Behind(Table, Released, id, Current)) != [])
      ensures Explained(Replies, old(Now()), Now(), if old(Table[id].failed) then {id} else {}, {})
    {
      hide AllWellPacked, LineAccounted, Sends, WellPacked, Behind, Line, Flushed, Increasing, Waiting, OthersKeep, Explained, StaysCalm, Named;
      ghost var m0, gone, released0 := Now(), if Table[id].failed then {id} else {}, Released;
      ExplainedNone(Replies, m0);
      OthersSame(Table, Table[id], id, Released);
      if Table[id].uncertain {
        FailedWaits(Table, id);
        EmptyWaits(Table, id);
        return false;
      }
      Clear(id);
      ghost var m1 := Now();
      ok := ControlSend(id, words);
      OthersThen(m0.table, m1.table, Table, id, released0, 0, released0);
      Then(Replies, m0, m1, Now(), gone, {});
    }

    /** The record and its request. */
    method ControlSend(id: nat, words: nat) returns (ok: bool)
      requires AllWellPacked(Limit, Table, History.lost) && id in Table && (Released != 0 ==> Released in Table) && Named(Now())
      requires LineAccounted(History, Table, Released, id, Current) && words <= 2
      requires !Table[id].failed && Table[id].packet == [] && Table[id].used == 0 && Table[id].records == 0
      modifies this`Table, this`History, this`Asked, this`Released
      ensures AllWellPacked(Limit, Table, History.lost) && SameContexts(old(Table), Table) && id in Table
      ensures LineAccounted(History, Table, Released, id, Current) && Released == 0 && ok == !Table[id].failed
      ensures (ok ==> Table[id].packet == []) && Waiting(Table, id) == [] && OthersKeep(old(Table), Table, id, old(Released))
      ensures History.issued == old(History).issued + [Entry(|old(History).issued|, id, 8 + words)]
      ensures History.overtook == (old(History).overtook || old(Behind(Table, Released, id, Current)) != [])
      ensures Explained(Replies, old(Now()), Now(), {}, {})
    {
      hide AllWellPacked, LineAccounted, Sends, WellPacked, Behind, Line, Flushed, Increasing, Waiting, OthersKeep, Explained, StaysCalm, Named;
      ghost var m0, released0 := Now(), Released;
      LimitsHold(Limit, Table, History.lost);
      ok := Record(id, words);
      ghost var m1, released := Now(), Released;
      StillNamed(Replies, m0, m1, {}, {});
      ok := Flush(id, Cleanup);
      TroubleFlushed(Limit, m1.log, m1.table, m1.asked, released, History, Table, Asked, id, NextId, |m0.log.issued|);
      FlushedSame(Limit, m1.log, m1.table, released, History, Table, id);
      ZeroIsNone(Limit, m1.table, m1.log.lost);
      FlushedOthers(m1.log, m1.table, released, History, Table, id);
      OthersThen(m0.table, m1.table, Table, id, released0, released0, released);
      ThenCleanup(Replies, m0, m1, Now(), {});
    }

    /** A packet that nothing will send gives way; the context may submit again. */
    method Clear(id: nat)
      requires AllWellPacked(Limit, Table, History.lost) && id in Table && (Table[id].failed || Table[id].packet == []) && !Table[id].uncertain
      requires LineAccounted(History, Table, Released, id, Current) && Named(Now())
      modifies this`Table
      ensures AllWellPacked(Limit, Table, History.lost) && SameContexts(old(Table), Table) && id in Table
      ensures LineAccounted(History, Table, Released, id, Current) && Named(Now())
      ensures !Table[id].failed && Table[id].packet == [] && Table[id].used == 0 && Table[id].records == 0
      ensures Behind(Table, Released, id, Current) == old(Behind(Table, Released, id, Current))
      ensures OthersKeep(old(Table), Table, id, 0)
      ensures Explained(Replies, old(Now()), Now(), if old(Table[id].failed) then {id} else {}, {})
    {
      hide AllWellPacked, LineAccounted, WellPacked, Behind, OthersKeep, Explained;
      var c := Cleared(Table[id]);
      ClearedFits(Limit, id, c, History.lost);
      UnlinedChange(Limit, History, Table, Released, id, Current, id, c);
      SameBehind(Table, id, c, Released, Current);
      OthersSame(Table, c, id, 0);
      ExplainedCleared(Replies, Now(), id);
      Table := Table[id := c];
    }

    // ---- API operations: nothing waits but in the released and the current context ----

    ghost predicate Inv()
      reads this
    {
      BetweenCalls(Limit, History, Table, Released, Current, NextId)
    }

    /** PublishFront: the window shows what was drawn to the front buffer. */
    method PublishFront(id: nat) returns (ok: bool)
      requires Inv() && id == Current != 0
      modifies this`Table
      ensures Inv() && FrontOnly(old(Table), Table) && Waiting(Table, id) == old(Waiting(Table, id))
      ensures old(id in Table) && ok == (old(Table[id].setup.frontDirty) ==> Fronts(Asked).presented)
      ensures Table == if ok then old(Table)[id := old(Table[id]).(setup := old(Table[id].setup).(frontDirty := false))] else old(Table)
      ensures Explained(Replies, old(Now()), Now(), {}, {})
    {
      hide BetweenCalls, Waiting, Explained, Named;
      NamedNow(Limit, Now(), Released, Current);
      ExplainedNone(Replies, Now());
      CurrentThere(Limit, History, Table, Released, Current, NextId);
      if !Table[id].setup.frontDirty {
        SameSetup(Table, id);
        return true;
      }
      var published := Fronts(Asked).presented;
      if published {
        var u := Table[id].setup.(frontDirty := false);
        var c := Table[id].(setup := u);
        SetupBetweenCalls(Limit, History, Table, Released, id, Current, NextId, u);
        SetupWaiting(Table, id, c);
        ExplainedSetup(Replies, Now(), id, u);
        Table := Table[id := c];
      }
      return published;
    }

    /** FlushCurrent: a glFlush record, the packet, then the front buffer where it was drawn to. */
    method FlushCurrent(mode: Mode) returns (ok: bool)
      requires Inv() && Current != 0 && mode != Cleanup
      modifies this`Table, this`History, this`Asked, this`Released
      ensures Inv() && FrontOnly(old(Table), Table) && (Released == 0 || Released == old(Released))
      ensures ok || !old(Table[Current].setup.inBegin) ==> Waiting(Table, Current) == []
      ensures old(Table[Current].setup.inBegin || Table[Current].failed) ==> !ok && Table == old(Table) && History == old(History)
      ensures History.overtook == old(History).overtook && Current in Table
      ensures !old(Table[Current].setup.inBegin || Table[Current].failed) ==>
                var c := Table[Current];
                && ok == (!c.failed && FrontSettled(old(Table[Current].setup.frontDirty), Fronts(Asked)))
                && c.setup == old(Table[Current].setup).(frontDirty := old(Table[Current].setup.frontDirty) && (c.failed || Fronts(Asked) != Front(true, true)))
                && (!c.failed ==> History.issued == old(History).issued + [Entry(|old(History).issued|, Current, 9)])
      ensures Explained(Replies, old(Now()), Now(), {}, {})
    {
      hide BetweenCalls, Waiting, Explained, Named;
      ghost var m0 := Now();
      NamedNow(Limit, m0, Released, Current);
      ExplainedNone(Replies, m0);
      CurrentThere(Limit, History, Table, Released, Current, NextId);
      if Table[Current].setup.inBegin || Table[Current].failed {
        FailedWaits(Table, Current);
        return false;
      }
      ok := FlushRecord(mode);
      SameSetups(m0.table, Table, Current);
      if ok && Table[Current].setup.frontDirty && Fronts(Asked).matches {
        ghost var m1 := Now();
        ok := PublishFront(Current);
        Then(Replies, m0, m1, Now(), {}, {});
      }
    }

    /** The glFlush record and the packet. */
    method FlushRecord(mode: Mode) returns (ok: bool)
      requires Inv() && Current in Table && mode != Cleanup && !Table[Current].setup.inBegin && !Table[Current].failed
      modifies this`Table, this`History, this`Asked, this`Released
      ensures Inv() && SameContexts(old(Table), Table) && Current in Table && (Released == 0 || Released == old(Released))
      ensures Waiting(Table, Current) == [] && ok == !Table[Current].failed && History.overtook == old(History).overtook
      ensures ok ==> History.issued == old(History).issued + [Entry(|old(History).issued|, Current, 9)]
      ensures Explained(Replies, old(Now()), Now(), {}, {})
    {
      hide AllWellPacked, LineAccounted, Sends, WellPacked, Behind, Line, Flushed, Increasing, Waiting, Explained, OthersKeep, StaysCalm, Named;
      ghost var m0, released0 := Now(), Released;
      NamedNow(Limit, m0, Released, Current);
      LimitsHold(Limit, Table, History.lost);
      NothingBehind(Table, Released, Current);
      ok := Record(Current, 1);
      CallEnds(Limit, m0.log, m0.table, released0, History, Table, Released, Current, NextId);
      if !ok {
        FailedWaits(Table, Current);
        return;
      }
      ghost var m1, released1 := Now(), Released;
      StillNamed(Replies, m0, m1, {}, {});
      ok := Flush(Current, mode);
      Then(Replies, m0, m1, Now(), {}, {});
      FlushedSame(Limit, m1.log, m1.table, released1, History, Table, Current);
      CallEnds(Limit, m1.log, m1.table, released1, History, Table, Released, Current, NextId);
    }

    /** ReleaseCurrent: with the queue the packet is kept for later; it takes the place of an older one, which goes out. */
    method ReleaseCurrent() returns (ok: bool)
      requires Inv() && Current != 0 && !Table[Current].failed && !Table[Current].setup.inBegin
      modifies this`Table, this`History, this`Asked, this`Released
      ensures Leaving(Limit, History, Table, Released, Current, NextId)
      ensures History.overtook == old(History).overtook
      ensures Stream(Current) != 0 && !old(Table[Current].setup.frontDirty || Table[Current].deferredFault) ==>
                ok && History.issued == old(History).issued && Released == if old(Table[Current].used) != 0 then Current else old(Released)
      ensures Stream(Current) != 0 && !old(Table[Current].setup.frontDirty || Table[Current].deferredFault) && (old(Released) == 0 || old(Table[Current].used) == 0) ==>
                Table == old(Table) && History == old(History)
      ensures Current in Table && ok == if Stream(Current) != 0 && !old(Table[Current].setup.frontDirty || Table[Current].deferredFault) then true
                                        else !Table[Current].failed && FrontSettled(old(Table[Current].setup.frontDirty), Fronts(Asked))
      ensures Explained(Replies, old(Now()), Now(), {}, {})
    {
      hide AllWellPacked, LineAccounted, Sends, WellPacked, Flushed, Waiting, Explained, StaysCalm, Named;
      ghost var m0 := Now();
      NamedNow(Limit, m0, Released, Current);
      ExplainedNone(Replies, m0);
      if Stream(Current) == 0 || Table[Current].setup.frontDirty || Table[Current].deferredFault {
        ok := FlushCurrent(Synchronous);
        NothingToRelease(Limit, History, Table, Released, Current, NextId);
        return;
      }
      if Table[Current].used == 0 {
        Untouched(Limit, Table, History.lost, Current);
        EmptyWaits(Table, Current);
        NothingToRelease(Limit, History, Table, Released, Current, NextId);
        return true;
      }
      ghost var t, log := Table, History;
      ZeroIsNone(Limit, t, log.lost);
      var released := Released;
      Released := 0;
      if released != 0 {
        ReleasedActs(log, t, released, Current);
        var sent := Flush(released, Asynchronous);
        assert log.issued == History.issued && log.overtook == History.overtook by {
          FlushedSame(Limit, log, t, 0, History, Table, released);
        }
      }
      ReleasePlace(Limit, log, t, released, History, Table, Current, NextId);
      Released := Current;
      return true;
    }

    /** Leaving the current context sends nothing: it is healthy, and at most one packet has to be kept. */
    ghost predicate LeavesSilently()
      reads this
    {
      Current != 0 && Current in Table ==>
        && Queued && (Released == 0 || Table[Current].used == 0)
        && var c := Table[Current]; !c.failed && !c.deferredFault && !c.setup.frontDirty && !c.setup.inBegin
    }

    /**
     * The first part of wglMakeCurrent: no context stays current. Inside
     * Begin/End the call fails, and exactly what the context held is lost.
     */
    method Leave() returns (ok: bool)
      requires Inv()
      modifies this`Table, this`History, this`Asked, this`Released, this`Current
      ensures Inv() && Current == 0 && History.overtook == old(History).overtook
      ensures old(LeavesSilently()) ==>
                ok && Table == old(Table) && History == old(History)
                && Released == if old(Current) != 0 && old(Table[Current].used) != 0 then old(Current) else old(Released)
      ensures old(LeftInBegin(Table, Current)) != {} ==>
                !ok && Table == old(Table) && History == old(History).(lost := old(History).lost + Serials(old(Table[Current].packet)))
      ensures old(Current in Table && Table[Current].failed) ==> ok && Table == old(Table) && History == old(History)
      ensures old(Current in Table && !Table[Current].failed && !Table[Current].setup.inBegin) ==>
                old(Current) in Table && ok == if Queued && !old(Table[Current].setup.frontDirty || Table[Current].deferredFault) then true
                                               else !Table[old(Current)].failed && FrontSettled(old(Table[Current].setup.frontDirty), Fronts(Asked))
      ensures Explained(Replies, old(Now()), Now(), {}, old(LeftInBegin(Table, Current)))
    {
      hide AllWellPacked, LineAccounted, BetweenCalls, Leaving, Explained, Named, Serials;
      ghost var m0, left := Now(), LeftInBegin(Table, Current);
      NamedNow(Limit, m0, Released, Current);
      ExplainedNone(Replies, m0);
      if Current == 0 {
        LeftNone(Limit, History, Table, Released, NextId);
        return true;
      }
      CurrentThere(Limit, History, Table, Released, Current, NextId);
      ok := true;
      if Table[Current].setup.inBegin && !Table[Current].failed {
        CallStarts(Limit, History, Table, Released, Current, NextId);
        ExplainedLeft(Limit, Replies, History, Table, Asked, Released, Current, NextId);
        BeginStrands(Limit, History, Table, Released, Current, NextId);
        History := History.(lost := History.lost + Serials(Waiting(Table, Current)));
        Current := 0;
        return false;
      }
      if !Table[Current].failed {
        ok := ReleaseCurrent();
      } else {
        FailedWaits(Table, Current);
        NothingToRelease(Limit, History, Table, Released, Current, NextId);
      }
      LeavingLeaves(Limit, History, Table, Released, Current, NextId);
      Current := 0;
    }

    /** Submit everything of the context that is becoming current. */
    method EnterFlush(id: nat) returns (ok: bool)
      requires Entering(Limit, History, Table, Released, id, NextId) && Current == 0
      modifies this`Table, this`History, this`Asked, this`Released
      ensures Entering(Limit, History, Table, Released, id, NextId) && SameContexts(old(Table), Table) && Released == 0
      ensures Table[id].failed || Table[id].packet == []
      ensures History.issued == old(History).issued && History.overtook == old(History).overtook
      ensures ok == !Table[id].failed && Explained(Replies, old(Now()), Now(), {}, {})
    {
      hide AllWellPacked, LineAccounted, Sends, WellPacked, Flushed, Entering, Waiting, Explained, StaysCalm, Named;
      EnteringParts(Limit, History, Table, Released, id, NextId);
      EnteringNamed(Limit, Now(), Released, id);
      ghost var t, log, released := Table, History, Released;
      ok := Flush(id, Synchronous);
      FlushedSame(Limit, log, t, released, History, Table, id);
      EnteringAfter(Limit, log, t, released, History, Table, Released, id, NextId);
    }

    method EnterControl(id: nat, words: nat) returns (ok: bool)
      requires Entering(Limit, History, Table, Released, id, NextId) && Current == 0 && words <= 2
      requires !Table[id].failed && Table[id].packet == []
      modifies this`Table, this`History, this`Asked, this`Released
      ensures Entering(Limit, History, Table, Released, id, NextId) && SameContexts(old(Table), Table)
      ensures ok ==> Released == 0
      ensures History.overtook == old(History).overtook
      ensures History.issued == old(History).issued + [Entry(|old(History).issued|, id, 8 + words)]
      ensures ok == !Table[id].failed && Explained(Replies, old(Now()), Now(), {}, {})
    {
      hide AllWellPacked, LineAccounted, Sends, WellPacked, Entering, Waiting, Behind, Explained, Named;
      EnteringParts(Limit, History, Table, Released, id, NextId);
      EnteringNamed(Limit, Now(), Released, id);
      ghost var t, log, released := Table, History, Released;
      ok := Control(id, words);
      EnteringAfter(Limit, log, t, released, History, Table, Released, id, NextId);
    }

    method EnterSetup(id: nat, u: Setup)
      requires Entering(Limit, History, Table, Released, id, NextId) && (u.drawable || id != Released)
      requires u.inBegin == Table[id].setup.inBegin && u.deleting == Table[id].setup.deleting
      modifies this`Table
      ensures Entering(Limit, History, Table, Released, id, NextId) && Table == old(Table)[id := old(Table)[id].(setup := u)]
      ensures Explained(Replies, old(Now()), Now(), {}, {})
    {
      hide Entering, Explained, Named;
      EnteringNamed(Limit, Now(), Released, id);
      EnteringSetup(Limit, History, Table, Released, id, NextId, u);
      assert id in Table by { EnteringParts(Limit, History, Table, Released, id, NextId); }
      ExplainedSetup(Replies, Now(), id, u);
      Table := Table[id := Table[id].(setup := u)];
    }

    /** MAKE_CURRENT on a drawable the host does not know yet, at once: its failure fails the call. */
    method EnterAttach(id: nat) returns (ok: bool)
      requires Entering(Limit, History, Table, Released, id, NextId) && Current == 0
      modifies this`Table, this`History, this`Asked, this`Released
      ensures Entering(Limit, History, Table, Released, id, NextId) && SameContexts(old(Table), Table)
      ensures ok ==> Released == 0
      ensures History.overtook == old(History).overtook
      ensures ok ==> History.issued == old(History).issued + [Entry(|old(History).issued|, id, 8)]
      ensures ok == !Table[id].failed && Explained(Replies, old(Now()), Now(), {}, {})
    {
      hide AllWellPacked, LineAccounted, Sends, WellPacked, Flushed, Entering, Waiting, Behind, Line, Increasing, Explained, OthersKeep, StaysCalm, Named;
      ghost var m0 := Now();
      EnteringParts(Limit, History, Table, Released, id, NextId);
      EnteringNamed(Limit, m0, Released, id);
      LimitsHold(Limit, Table, History.lost);
      ghost var released := Released;
      ok := Record(id, 0);
      if ok {
        ghost var m1, released1 := Now(), Released;
        StillNamed(Replies, m0, m1, {}, {});
        ok := Flush(id, Synchronous);
        FlushedSame(Limit, m1.log, m1.table, released1, History, Table, id);
        Then(Replies, m0, m1, Now(), {}, {});
      } else {
        FailedWaits(Table, id);
      }
      EnteringAfter(Limit, m0.log, m0.table, released, History, Table, Released, id, NextId);
    }

    /** A drawable of another window or size goes, after the commands drawn to it. */
    method EnterReplace(id: nat) returns (ok: bool)
      requires Entering(Limit, History, Table, Released, id, NextId) && Current == 0
      modifies this`Table, this`History, this`Asked, this`Released
      ensures Entering(Limit, History, Table, Released, id, NextId)
      ensures History.overtook == old(History).overtook
      ensures old(id in Table) && id in Table && Table[id].setup == if ok then old(Table[id].setup).(drawable := false, frontDirty := false, attached := false) else old(Table[id].setup)
      ensures ok ==> History.issued == old(History).issued + [Entry(|old(History).issued|, id, 8)]
      ensures ok == !Table[id].failed && Explained(Replies, old(Now()), Now(), {}, {})
    {
      hide Entering, AllWellPacked, LineAccounted, Sends, WellPacked, Waiting, Behind, SameContexts, Explained;
      ghost var m0 := Now();
      EnteringParts(Limit, History, Table, Released, id, NextId);
      ok := EnterFlush(id);
      SameSetups(m0.table, Table, id);
      if ok {
        ghost var m1 := Now();
        EnteringParts(Limit, History, Table, Released, id, NextId);
        ok := EnterControl(id, 0);
        SameSetups(m1.table, Table, id);
        Then(Replies, m0, m1, Now(), {}, {});
        EnteringParts(Limit, History, Table, Released, id, NextId);
        if ok {
          ghost var m2 := Now();
          EnterSetup(id, Table[id].setup.(drawable := false, frontDirty := false, attached := false));
          Then(Replies, m0, m2, Now(), {}, {});
        }
      }
    }

    method EnterCreate(id: nat) returns (ok: bool)
      requires Entering(Limit, History, Table, Released, id, NextId) && Current == 0 && id in Table && !Table[id].setup.drawable && !Table[id].failed
      modifies this`Table, this`History, this`Asked, this`Released
      ensures Entering(Limit, History, Table, Released, id, NextId) && id in Table && (ok ==> Table[id].setup.drawable)
      ensures History.overtook == old(History).overtook
      ensures Table[id].setup == if ok then old(Table[id].setup).(drawable := true, attached := false) else old(Table[id].setup)
      ensures ok ==> History.issued == old(History).issued + [Entry(|old(History).issued|, id, 10)]
      ensures ok == !Table[id].failed && Explained(Replies, old(Now()), Now(), {}, {})
    {
      hide Entering, AllWellPacked, LineAccounted, Sends, WellPacked, Waiting, Behind, SameContexts, Explained;
      ghost var m0 := Now();
      EnteringParts(Limit, History, Table, Released, id, NextId);
      ok := EnterControl(id, 2);
      SameSetups(m0.table, Table, id);
      EnteringParts(Limit, History, Table, Released, id, NextId);
      if ok {
        ghost var m1 := Now();
        EnterSetup(id, Table[id].setup.(drawable := true, attached := false));
        Then(Replies, m0, m1, Now(), {}, {});
      }
    }

    /** The drawable is for the window as it is now, or there is none. */
    method EnterView(id: nat, view: View) returns (ok: bool)
      requires Entering(Limit, History, Table, Released, id, NextId) && Current == 0 && id in Table && !Table[id].failed
      modifies this`Table, this`History, this`Asked, this`Released
      ensures Entering(Limit, History, Table, Released, id, NextId) && id in Table
      ensures History.overtook == old(History).overtook
      ensures old(Table[id].setup.drawable) && old(Table[id].setup.view) == view ==>
                ok && Table == old(Table) && History == old(History) && Released == old(Released)
      ensures ok ==> var u := old(Table[id].setup); var kept := u.drawable && u.view == view;
                Table[id].setup == if kept || !u.drawable then u.(view := view) else u.(view := view, drawable := false, frontDirty := false, attached := false)
      ensures ok == !Table[id].failed && (ok ==> Table[id].setup.view == view) && Explained(Replies, old(Now()), Now(), {}, {})
    {
      hide Entering, AllWellPacked, LineAccounted, Sends, WellPacked, Waiting, Behind, SameContexts, Explained, Named;
      ghost var m0 := Now();
      EnteringNamed(Limit, m0, Released, id);
      ExplainedNone(Replies, m0);
      if Table[id].setup.drawable && Table[id].setup.view != view {
        ok := EnterReplace(id);
        EnteringParts(Limit, History, Table, Released, id, NextId);
        if !ok {
          return;
        }
      }
      EnteringParts(Limit, History, Table, Released, id, NextId);
      ghost var m1 := Now();
      EnterSetup(id, Table[id].setup.(view := view));
      Then(Replies, m0, m1, Now(), {}, {});
      return true;
    }

    /** A drawable of the window's present size exists on the host and belongs to the context. */
    method EnterDrawable(id: nat, view: View) returns (ok: bool)
      requires Entering(Limit, History, Table, Released, id, NextId) && Current == 0 && id in Table && !Table[id].failed
      modifies this`Table, this`History, this`Asked, this`Released
      ensures Entering(Limit, History, Table, Released, id, NextId) && id in Table && (ok ==> Table[id].setup.drawable)
      ensures History.overtook == old(History).overtook
      ensures old(Table[id].setup.drawable && Table[id].setup.attached) && old(Table[id].setup.view) == view ==>
                ok && Table == old(Table) && History == old(History) && Released == old(Released)
      ensures ok ==> var u := old(Table[id].setup);
                Table[id].setup == u.(view := view, drawable := true, attached := true, frontDirty := u.frontDirty && !(u.drawable && u.view != view))
      ensures ok == !Table[id].failed && Explained(Replies, old(Now()), Now(), {}, {})
    {
      hide Entering, AllWellPacked, LineAccounted, Sends, WellPacked, Waiting, Behind, SameContexts, Explained;
      ghost var m0 := Now();
      ok := EnterView(id, view);
      if !ok {
        return;
      }
      ghost var m1 := Now();
      ok := EnterOwn(id);
      Then(Replies, m0, m1, Now(), {}, {});
    }

    /** There is a drawable, and the host has joined it to the context. */
    method EnterOwn(id: nat) returns (ok: bool)
      requires Entering(Limit, History, Table, Released, id, NextId) && Current == 0 && id in Table && !Table[id].failed
      modifies this`Table, this`History, this`Asked, this`Released
      ensures Entering(Limit, History, Table, Released, id, NextId) && id in Table
      ensures History.overtook == old(History).overtook
      ensures old(Table[id].setup.drawable && Table[id].setup.attached) ==>
                ok && Table == old(Table) && History == old(History) && Released == old(Released)
      ensures ok ==> Table[id].setup == old(Table[id].setup).(drawable := true, attached := true)
      ensures ok == !Table[id].failed && Explained(Replies, old(Now()), Now(), {}, {})
    {
      hide Entering, AllWellPacked, LineAccounted, Sends, WellPacked, Waiting, Behind, SameContexts, Explained, Named;
      ghost var m0 := Now();
      EnteringNamed(Limit, m0, Released, id);
      ExplainedNone(Replies, m0);
      ok := true;
      if !Table[id].setup.drawable {
        ok := EnterCreate(id);
      }
      if ok && !Table[id].setup.attached {
        ghost var m1 := Now();
        ok := EnterJoin(id);
        Then(Replies, m0, m1, Now(), {}, {});
      }
    }

    method EnterJoin(id: nat) returns (ok: bool)
      requires Entering(Limit, History, Table, Released, id, NextId) && Current == 0 && id in Table && Table[id].setup.drawable
      modifies this`Table, this`History, this`Asked, this`Released
      ensures Entering(Limit, History, Table, Released, id, NextId) && id in Table && Table[id].setup.drawable
      ensures History.overtook == old(History).overtook
      ensures old(id in Table) && Table[id].setup == if ok then old(Table[id].setup).(attached := true) else old(Table[id].setup)
      ensures ok == !Table[id].failed && Explained(Replies, old(Now()), Now(), {}, {})
    {
      hide Entering, AllWellPacked, LineAccounted, Sends, WellPacked, Waiting, Behind, SameContexts, Explained;
      ghost var m0 := Now();
      ok := EnterAttach(id);
      SameSetups(m0.table, Table, id);
      if ok {
        ghost var m1 := Now();
        EnterSetup(id, Table[id].setup.(attached := true));
        Then(Replies, m0, m1, Now(), {}, {});
      }
    }

    /**
     * The rest of wglMakeCurrent: the context named by `id` becomes current,
     * unless it is inside Begin/End or being deleted: then nothing of it is sent.
     */
    method Enter(id: nat, view: View, bind: bool) returns (ok: bool)
      requires Inv() && Current == 0
      modifies this`Table, this`History, this`Asked, this`Released, this`Current
      ensures Inv() && Current == (if ok then id else 0)
      ensures History.overtook == old(History).overtook
      ensures old(Resumes(id, view)) && bind ==>
                ok && Table == old(Table) && History == old(History) && Released == if old(Released) == id then 0 else old(Released)
      ensures id !in old(Table) ==> !ok
      ensures old(id in Table && Barred(Table[id])) ==> !ok && History.accepted == old(History).accepted && History.issued == old(History).issued
      ensures ok ==> old(id in Table) && id in Table && !old(Table[id].deferredFault) && Seated(Table[id], view, bind)
                     && var u, shown := old(Table[id].setup), view.width != 0 && view.height != 0;
                     && (if shown then bind else u.drawable && u.view.window == view.window)
                     && Table[id].setup == u.(view := if shown then view else u.view, drawable := true, attached := true,
                                              frontDirty := u.frontDirty && !(u.drawable && shown && u.view != view))
      ensures Calm(Replies, old(Asked), Asked) && old(Enterable(id)) && view.found && (Shown(view) ==> bind)
              && (!Shown(view) ==> old(Table[id].setup.drawable && Table[id].setup.view.window == view.window)) ==>
                ok
      ensures Explained(Replies, old(Now()), Now(), {}, {})
    {
      hide BetweenCalls, Entering, AllWellPacked, LineAccounted, WellPacked, Waiting, Explained, Named, Serials, Calm;
      ghost var m0 := Now();
      NamedNow(Limit, m0, Released, 0);
      ExplainedNone(Replies, m0);
      if id !in Table {
        return false;
      }
      EnterFault(id);
      ghost var m1 := Now();
      var u := Table[id].setup;
      if !u.created || Table[id].failed || u.deleting || u.inBegin || !view.found {
        return false;
      }
      var visible, size := view.width != 0 && view.height != 0, view;
      if !visible {
        if !u.drawable || u.view.window != view.window {
          return false;
        }
        size := u.view;
      }
      EnteringStarts(Limit, History, Table, Released, id, NextId);
      ok := EnterDrawable(id, size);
      Then(Replies, m0, m1, Now(), {}, {});
      StillHealthy(Replies, m0, Now(), {}, {}, id);
      EnteringFails(Limit, History, Table, Released, id, NextId);
      if !ok || (visible && !bind) {
        return false;
      }
      EnteringSucceeds(Limit, History, Table, Released, id, NextId);
      Current := id;
      if Released == id {
        Released := 0;
      }
      return true;
    }

    /** A failure reported for the context fails the call, as a flush of it would. */
    method EnterFault(id: nat)
      requires Inv() && Current == 0 && id in Table
      modifies this`Table, this`History
      ensures Inv() && id in Table && Table[id] == Faulted(old(Table), id)[id] && Table[id].setup == old(Table[id].setup)
      ensures Table[id].failed == old(Troubled(Table, id))
      ensures !old(Table[id].deferredFault) ==> Table == old(Table) && History == old(History)
      ensures History == old(History).(lost := History.lost)
      ensures Explained(Replies, old(Now()), Now(), {}, {})
    {
      hide BetweenCalls, AllWellPacked, LineAccounted, WellPacked, Waiting, Explained, Named, Serials;
      NamedNow(Limit, Now(), Released, 0);
      CallStarts(Limit, History, Table, Released, 0, NextId);
      ExplainedFault(Limit, Replies, History, Table, Asked, Released, id, NextId);
      FaultLoses(Limit, History, Table, Released, id, NextId);
      ghost var m0 := Now();
      assert m0.log.lost + {} == m0.log.lost;
      TakeDeferredFault(id);
      Untouched(Limit, m0.table, m0.log.lost, id);
      assert !m0.table[id].deferredFault ==> Table == m0.table;
    }

    /** A healthy context that the host has. */
    ghost predicate Enterable(id: nat)
      reads this
    {
      !Troubled(Table, id) && id in Table && Table[id].setup.created && !Barred(Table[id])
    }

    /** A healthy context on its own window, which nothing has changed. */
    ghost predicate Resumes(id: nat, view: View)
      reads this
    {
      && id in Table && !Table[id].failed && !Table[id].deferredFault
      && (var u := Table[id].setup; u.created && !u.deleting && !u.inBegin && u.drawable && u.attached && view.found && u.view == view)
    }

    /** wglMakeCurrent, with 0 for no context. A failure leaves no context current. */
    method MakeCurrent(id: nat, view: View, bind: bool) returns (ok: bool)
      requires Inv()
      modifies this`Table, this`History, this`Asked, this`Released, this`Current
      ensures Inv() && Current == (if ok then id else 0)
      ensures History.overtook == old(History).overtook
      ensures id != 0 && old(Resumes(id, view)) && bind && old(LeavesSilently()) ==>
                var kept := if old(Current) != 0 && old(Table[Current].used) != 0 then old(Current) else old(Released);
                ok && Table == old(Table) && History == old(History) && Released == if kept == id then 0 else kept
      ensures old(id in Table && Barred(Table[id])) ==> !ok
      ensures old(LeftInBegin(Table, Current)) != {} ==>
                !ok && Table == old(Table) && History == old(History).(lost := old(History).lost + Serials(old(Table[Current].packet)))
      ensures Calm(Replies, old(Asked), Asked) && old(Enterable(id)) && Shown(view) && bind && old(LeavesSilently()) ==> ok
      ensures id == 0 && old(LeavesSilently()) ==> ok
      ensures ok && id != 0 ==> id in Table && Seated(Table[id], view, bind)
      ensures Explained(Replies, old(Now()), Now(), {}, old(LeftInBegin(Table, Current)))
    {
      hide BetweenCalls, AllWellPacked, LineAccounted, Explained, Barred, Serials, Calm, Troubled;
      ghost var m0, left := Now(), LeftInBegin(Table, Current);
      ReleasedDrawn(Limit, History, Table, Released, Current, NextId);
      ok := Leave();
      ghost var m1 := Now();
      StillBarred(Replies, m0, m1, {}, left, id);
      if !ok || id == 0 {
        return;
      }
      ok := Enter(id, view, bind);
      hide Seated;
      CalmParts(Replies, m0, m1, Now(), {}, left, {}, {});
      Then(Replies, m0, m1, Now(), {}, left);
    }

    /** Control for a context that is not current: its record goes out ahead of what the current one still holds. */
    method ControlAside(id: nat, words: nat) returns (ok: bool)
      requires Inv() && id in Table && id != Current && Waiting(Table, id) == [] && words <= 2
      modifies this`Table, this`History, this`Asked, this`Released
      ensures Inv() && id in Table && SameContexts(old(Table), Table) && Waiting(Table, id) == []
      ensures ok ==> Released == 0 && !Table[id].failed && Table[id].packet == []
      ensures !old(Table[id].uncertain) ==> ok == !Table[id].failed
      ensures History.issued == old(History).issued + if old(Table[id].uncertain) then [] else [Entry(|old(History).issued|, id, 8 + words)]
      ensures Released == 0 || Released == old(Released)
      ensures Waiting(Table, Current) == old(Waiting(Table, Current))
      ensures History.overtook == (old(History).overtook || (!old(Table[id].uncertain) && old(Waiting(Table, Current)) != []))
      ensures Explained(Replies, old(Now()), Now(), if old(Table[id].failed) then {id} else {}, {})
    {
      hide BetweenCalls, LineAccounted, AllWellPacked, Behind, WellPacked, OthersKeep, Waiting, Explained, Named;
      ghost var t, log, released := Table, History, Released;
      NamedNow(Limit, Now(), Released, Current);
      CallStarts(Limit, log, t, released, Current, NextId);
      AsideStarts(Limit, log, t, released, id, Current, NextId);
      CurrentIsBehind(Limit, log, t, released, id, Current, NextId);
      WaitsNothing(t, id);
      ok := Control(id, words);
      ReleasedIsOther(Limit, log, t, released, Current, NextId);
      OtherWaits(t, Table, id, released, Current);
      AsideEnds(Limit, log, t, released, History, Table, Released, id, Current, NextId);
    }

    /** wglCreateContext. */
    method Create(view: View) returns (id: nat)
      requires Inv()
      modifies this`Table, this`History, this`Asked, this`Released, this`NextId
      ensures Inv() && (id != 0 ==> id in Table && id !in old(Table) && Table[id].setup.created)
      ensures History.overtook == (old(History).overtook || old(Waiting(Table, Current)) != [])
      ensures History.issued == old(History).issued + [Entry(|old(History).issued|, NextId, 9)] && Waiting(Table, Current) == old(Waiting(Table, Current))
      ensures id != 0 ==> id == NextId && Table[id].packet == [] && Table[id].setup == Setup(true, false, false, false, false, false, view)
      ensures id == 0 && NextId in Table ==> Table[NextId].uncertain && Table[NextId].setup == Setup(false, true, false, false, false, false, view)
      ensures Calm(Replies, old(Asked), Asked) ==> id != 0 && !Troubled(Table, id)
      ensures Explained(Replies, old(Now()), Now(), {NextId}, {})
      ensures NextId == old(NextId) + 1
    {
      hide BetweenCalls, Waiting, Explained, Named, Calm;
      ghost var m0 := Now();
      NamedNow(Limit, m0, Released, Current);
      AddKeeps(Limit, History, Table, Released, Current, NextId, view);
      assert Current != NextId + 1 by { CurrentIsThere(Limit, History, Table, Released, Current, NextId); }
      ExplainedAdded(Replies, m0, view);
      NextId := NextId + 1;
      id := NextId;
      BlankWaits(Table, id, view, Current);
      Table := Table[id := Blank(view)];
      ghost var m1 := Now();
      var ok := ControlAside(id, 1);
      ghost var m2 := Now();
      Then(Replies, m0, m1, m2, {id}, {});
      StillHealthy(Replies, m1, m2, {}, {}, id);
      StillNamed(Replies, m0, m2, {id}, {});
      ReleasedDrawn(Limit, History, Table, Released, Current, NextId);
      ghost var made := {id};
      var u := Table[id].setup;
      KeepsWaiting(Table, Table[id].(setup := if ok then u.(created := true) else u.(deleting := true)), id, Current);
      if ok || Table[id].uncertain {
        u := if ok then u.(created := true) else u.(deleting := true);
        SetupBetweenCalls(Limit, History, Table, Released, id, Current, NextId, u);
        ExplainedSetup(Replies, m2, id, u);
        Table := Table[id := Table[id].(setup := u)];
        ExplainedThen(Replies, m0, m2, Now(), made, {}, {}, {}, made, {});
      } else {
        RemoveKeeps(Limit, History, Table, Released, id, Current, NextId);
        ExplainedRemoved(Replies, m2, id);
        Table := Table - {id};
        ExplainedThen(Replies, m0, m2, Now(), made, {}, made, {}, made, {});
      }
      if !ok {
        id := 0;
      }
    }

    /**
     * wglDeleteContext. A healthy context's records go out first, unless a
     * failure comes back before or with them. The control records that then
     * delete another context than the current one overtake what that one holds.
     */
    method Delete(id: nat) returns (ok: bool, ghost refused: bool)
      requires Inv()
      modifies this`Table, this`History, this`Asked, this`Released, this`Current
      ensures Inv() && ok == (old(id in Table) && id !in Table)
      ensures Calm(Replies, old(Asked), Asked) && old(id in Table && !Troubled(Table, id)) ==> ok && !refused
      ensures id == old(Current) ==> Current == 0 && History.overtook == old(History).overtook
      ensures id != old(Current) ==> Current == old(Current)
      ensures id != old(Current) ==>
                History.overtook == (old(History).overtook || (History.issued != old(History).issued && old(Waiting(Table, Current)) != []))
      ensures id != old(Current) && History.issued != old(History).issued ==> old(id in Table && (Table[id].setup.created || Table[id].setup.drawable))
      ensures id != old(Current) && !refused && old(id in Table && (Table[id].setup.created || Table[id].setup.drawable)) ==> History.issued != old(History).issued
      ensures id in Table ==> Table[id].setup.deleting
      ensures Explained(Replies, old(Now()), Now(), {id}, if old(id in Table && Table[id].setup.inBegin) then {id} else {})
      ensures refused ==> old(Troubled(Table, id)) || !Calm(Replies, old(Asked), Asked)
      ensures old(id in Table && !Table[id].setup.inBegin) && !refused ==> forall e :: e in old(Waiting(Table, id)) ==> e in History.accepted
    {
      hide BetweenCalls, Waiting, Explained, Named, Calm, Troubled;
      ghost var m0 := Now();
      NamedNow(Limit, m0, Released, Current);
      ExplainedNone(Replies, m0);
      CurrentIsThere(Limit, History, Table, Released, Current, NextId);
      ReleasedDrawn(Limit, History, Table, Released, Current, NextId);
      refused := false;
      if id !in Table {
        return false, false;
      }
      ghost var left := if Table[id].setup.inBegin then {id} else {};
      ghost var unbound := if id == Current then LeftInBegin(Table, Current) else {};
      if id == Current {
        UnbindDeleted();
        ReleasedDrawn(Limit, History, Table, Released, Current, NextId);
        WaitingZero(Table);
      }
      ghost var m1 := Now();
      FinishDeleted(id);
      ghost var m2 := Now();
      refused := Table[id].failed;
      UncertainFailed(Limit, History, Table, Released, Current, NextId, id);
      ExplainedThen(Replies, m0, m1, m2, {}, unbound, {id}, left, {id}, left);
      AcceptedStays(Replies, m1, m2, {id}, left, old(Waiting(Table, id)));
      ok := Erase(id);
      ExplainedThen(Replies, m0, m2, Now(), {id}, left, {id}, {}, {id}, left);
      AcceptedStays(Replies, m2, Now(), {id}, {}, old(Waiting(Table, id)));
      CalmParts(Replies, m0, m2, Now(), {id}, left, {id}, {});
      StillHealthy(Replies, m0, m2, {id}, left, id);
      StillHealthy(Replies, m0, Now(), {id}, left, id);
      FailedIsTroubled(m2.table, id);
      FailedIsTroubled(Table, id);
      if refused {
        TroubleBefore(Replies, m0, m2, Now(), {id}, left, {id}, {}, id);
      }
    }

    /** The current context is deleted: its commands go out, or are given up inside Begin/End. */
    method UnbindDeleted()
      requires Inv() && Current != 0
      modifies this`Table, this`History, this`Asked, this`Released, this`Current
      ensures Inv() && Current == 0 && Table.Keys == old(Table).Keys && old(Current) in Table && History.overtook == old(History).overtook
      ensures Table[old(Current)].setup.inBegin == old(Table[Current].setup.inBegin)
      ensures Explained(Replies, old(Now()), Now(), {}, old(LeftInBegin(Table, Current)))
      ensures !old(Table[Current].setup.inBegin) ==>
                Table[old(Current)].failed || forall e :: e in old(Waiting(Table, Current)) ==> e in History.accepted
    {
      hide BetweenCalls, Leaving, Waiting, Explained, Named, Serials;
      NamedNow(Limit, Now(), Released, Current);
      CurrentThere(Limit, History, Table, Released, Current, NextId);
      CallStarts(Limit, History, Table, Released, Current, NextId);
      if Table[Current].setup.inBegin && !Table[Current].failed {
        ExplainedLeft(Limit, Replies, History, Table, Asked, Released, Current, NextId);
        BeginStrands(Limit, History, Table, Released, Current, NextId);
        History := History.(lost := History.lost + Serials(Waiting(Table, Current)));
      } else {
        UnbindFlushed();
        NothingToRelease(Limit, History, Table, Released, Current, NextId);
        LeavingLeaves(Limit, History, Table, Released, Current, NextId);
      }
      Current := 0;
    }

    method UnbindFlushed()
      requires Inv() && Current in Table && (Table[Current].setup.inBegin ==> Table[Current].failed)
      modifies this`Table, this`History, this`Asked, this`Released
      ensures Inv() && Table.Keys == old(Table).Keys && Waiting(Table, Current) == [] && History.overtook == old(History).overtook
      ensures Table[Current].setup.inBegin == old(Table[Current].setup.inBegin)
      ensures Explained(Replies, old(Now()), Now(), {}, {})
      ensures Table[Current].failed || forall e :: e in old(Waiting(Table, Current)) ==> e in History.accepted
    {
      hide BetweenCalls, Waiting, Explained, Named;
      ghost var m0, released := Now(), Released;
      NamedNow(Limit, m0, Released, Current);
      ExplainedNone(Replies, m0);
      CurrentIsThere(Limit, History, Table, Released, Current, NextId);
      FailedWaits(Table, Current);
      if !Table[Current].failed {
        var flushed := FlushCurrent(Synchronous);
        if !Table[Current].failed {
          WaitedBeforeFlush(Limit, Replies, m0, released, Current, Now(), Released, Current, Current);
        }
      }
    }

    /** What the context still holds goes out, or is given up. */
    method FinishDeleted(id: nat)
      requires Inv() && id in Table && id != Current
      modifies this`Table, this`History, this`Asked, this`Released
      ensures Inv() && id in Table && Released != id && Waiting(Table, id) == [] && (old(Table[id].failed) ==> Table[id].failed)
      ensures History.overtook == old(History).overtook && History.issued == old(History).issued && Waiting(Table, Current) == old(Waiting(Table, Current))
      ensures Table[id].setup == old(Table[id].setup).(deleting := true, inBegin := false)
      ensures Explained(Replies, old(Now()), Now(), {id}, if old(Table[id].setup.inBegin) then {id} else {})
      ensures !old(Table[id].setup.inBegin) ==> Table[id].failed || forall e :: e in old(Waiting(Table, id)) ==> e in History.accepted
    {
      hide BetweenCalls, Waiting, AllWellPacked, LineAccounted, Flushed, WellPacked, OthersKeep, Explained, StaysCalm, Named, Serials;
      ghost var m0, released0 := Now(), Released;
      NamedNow(Limit, m0, Released, Current);
      ExplainedNone(Replies, m0);
      ReleasedDrawn(Limit, History, Table, Released, Current, NextId);
      FailedWaits(Table, id);
      if !Table[id].failed && !Table[id].setup.inBegin {
        FlushDeleted(id);
      }
      ghost var m1, left := Now(), if Table[id].setup.inBegin then {id} else {};
      FailedWaits(Table, id);
      NamedNow(Limit, m1, Released, Current);
      CallStarts(Limit, History, Table, Released, Current, NextId);
      ExplainedErased(Limit, Replies, History, Table, Asked, Released, id, Current, NextId);
      EraseKeeps(Limit, History, Table, Released, id, Current, NextId);
      ErasedWaits(Table, id, Current);
      History := History.(lost := History.lost + Serials(Waiting(Table, id)));
      Table := Table[id := Erased(Table[id])];
      ExplainedThen(Replies, m0, m1, Now(), {}, {}, {id}, left, {id}, left);
      if Released == id {
        Released := 0;
      }
    }

    method FlushDeleted(id: nat)
      requires Inv() && id in Table && id != Current && !Table[id].failed && !Table[id].setup.inBegin
      modifies this`Table, this`History, this`Asked, this`Released
      ensures Inv() && id in Table && Waiting(Table, id) == [] && !Table[id].setup.inBegin && Released == 0
      ensures History.overtook == old(History).overtook && History.issued == old(History).issued && Waiting(Table, Current) == old(Waiting(Table, Current))
      ensures Table[id].setup == old(Table[id].setup)
      ensures Explained(Replies, old(Now()), Now(), {}, {})
      ensures Table[id].failed || forall e :: e in old(Waiting(Table, id)) ==> e in History.accepted
    {
      hide BetweenCalls, Waiting, AllWellPacked, LineAccounted, Flushed, WellPacked, OthersKeep, Explained, StaysCalm, Named, Serials;
      ghost var m0, released := Now(), Released;
      NamedNow(Limit, m0, Released, Current);
      WaitsWhere(Limit, m0.log, m0.table, released, id, Current, NextId);
      AsideStarts(Limit, m0.log, m0.table, released, id, Current, NextId);
      CallStarts(Limit, m0.log, m0.table, released, Current, NextId);
      var sent := Flush(id, Synchronous);
      FlushedSame(Limit, m0.log, m0.table, released, History, Table, id);
      AsideEnds(Limit, m0.log, m0.table, released, History, Table, Released, id, Current, NextId);
      ReleasedIsOther(Limit, m0.log, m0.table, released, Current, NextId);
      FlushedOthers(m0.log, m0.table, released, History, Table, id);
      OtherWaits(m0.table, Table, id, released, Current);
      if !Table[id].failed {
        WaitedBeforeFlush(Limit, Replies, m0, released, Current, Now(), 0, Current, id);
      }
    }

    /** The host's context and drawable go; the name is free. */
    method Erase(id: nat) returns (ok: bool)
      requires Inv() && id in Table && id != Current && Released != id && Waiting(Table, id) == []
      modifies this`Table, this`History, this`Asked, this`Released
      ensures Inv() && ok == (id !in Table)
      ensures ok ==> !old(Table[id].uncertain) && var u, n := old(Table[id].setup), |old(History).issued|;
                var context := if u.created then [Entry(n, id, 8)] else [];
                History.issued == old(History).issued + (context + if u.drawable then [Entry(n + |context|, id, 8)] else [])
      ensures !ok ==> old(Table[id].uncertain) || Table[id].failed
      ensures History.issued != old(History).issued <==> old(!Table[id].uncertain && (Table[id].setup.created || Table[id].setup.drawable))
      ensures History.overtook == (old(History).overtook || (History.issued != old(History).issued && old(Waiting(Table, Current)) != []))
      ensures id in Table ==> Table[id].setup.deleting == old(Table[id].setup.deleting)
      ensures Explained(Replies, old(Now()), Now(), {id}, {})
    {
      hide BetweenCalls, Waiting, Explained, Named;
      ghost var m0 := Now();
      NamedNow(Limit, m0, Released, Current);
      ExplainedNone(Replies, m0);
      if Table[id].uncertain {
        return false;
      }
      if Table[id].setup.created {
        ok := EraseStep(id, false);
        if !ok {
          return;
        }
        UncertainFailed(Limit, History, Table, Released, Current, NextId, id);
      }
      ghost var m1 := Now();
      if Table[id].setup.drawable {
        ok := EraseStep(id, true);
        ExplainedThen(Replies, m0, m1, Now(), {id}, {}, {id}, {}, {id}, {});
        if !ok {
          return;
        }
      }
      RemoveKeeps(Limit, History, Table, Released, id, Current, NextId);
      ghost var m2 := Now();
      StillNamed(Replies, m0, m2, {id}, {});
      ExplainedRemoved(Replies, m2, id);
      Table := Table - {id};
      ExplainedThen(Replies, m0, m2, Now(), {id}, {}, {id}, {}, {id}, {});
      return true;
    }

    method EraseStep(id: nat, drawable: bool) returns (ok: bool)
      requires Inv() && id in Table && id != Current && Released != id && Waiting(Table, id) == []
      modifies this`Table, this`History, this`Asked, this`Released
      ensures Inv() && id in Table && Released != id && Waiting(Table, id) == []
      ensures History.issued == old(History).issued + if old(Table[id].uncertain) then [] else [Entry(|old(History).issued|, id, 8)]
      ensures History.overtook == (old(History).overtook || (!old(Table[id].uncertain) && old(Waiting(Table, Current)) != []))
      ensures Table[id].setup == if !ok then old(Table[id].setup)
                                 else if drawable then old(Table[id].setup).(drawable := false)
                                 else old(Table[id].setup).(created := false)
      ensures !old(Table[id].uncertain) ==> ok == !Table[id].failed
      ensures Waiting(Table, Current) == old(Waiting(Table, Current))
      ensures Explained(Replies, old(Now()), Now(), {id}, {})
    {
      hide BetweenCalls, Waiting, SameContexts, Explained, Named, Barred;
      ghost var m0 := Now();
      ok := EraseControl(id);
      ghost var m1 := Now();
      if ok {
        var u := Table[id].setup;
        u := if drawable then u.(drawable := false) else u.(created := false);
        SetAside(id, u);
        Then(Replies, m0, m1, Now(), {id}, {});
      }
    }

    method EraseControl(id: nat) returns (ok: bool)
      requires Inv() && id in Table && id != Current && Released != id && Waiting(Table, id) == []
      modifies this`Table, this`History, this`Asked, this`Released
      ensures Inv() && id in Table && Released != id && Waiting(Table, id) == []
      ensures History.issued == old(History).issued + if old(Table[id].uncertain) then [] else [Entry(|old(History).issued|, id, 8)]
      ensures History.overtook == (old(History).overtook || (!old(Table[id].uncertain) && old(Waiting(Table, Current)) != []))
      ensures Table[id].setup == old(Table[id].setup) && (!old(Table[id].uncertain) ==> ok == !Table[id].failed)
      ensures Waiting(Table, Current) == old(Waiting(Table, Current))
      ensures Explained(Replies, old(Now()), Now(), {id}, {})
    {
      hide BetweenCalls, Waiting, SameContexts, Explained, Named;
      ghost var m0, cleared := Now(), if Table[id].failed then {id} else {};
      NamedNow(Limit, m0, Released, Current);
      ExplainedNone(Replies, m0);
      ReleasedDrawn(Limit, History, Table, Released, Current, NextId);
      ok := ControlAside(id, 0);
      SameSetups(m0.table, Table, id);
      ExplainedThen(Replies, m0, m0, Now(), {}, {}, cleared, {}, {id}, {});
    }

    method SetAside(id: nat, u: Setup)
      requires Inv() && id in Table && id != Current && Released != id && Waiting(Table, id) == []
      requires u.inBegin == Table[id].setup.inBegin && u.deleting == Table[id].setup.deleting
      modifies this`Table
      ensures Inv() && Table == old(Table)[id := old(Table)[id].(setup := u)]
      ensures Waiting(Table, id) == [] && Waiting(Table, Current) == old(Waiting(Table, Current))
      ensures Explained(Replies, old(Now()), Now(), {}, {})
    {
      hide BetweenCalls, Waiting, Explained, Named;
      NamedNow(Limit, Now(), Released, Current);
      SetupBetweenCalls(Limit, History, Table, Released, id, Current, NextId, u);
      SetupWaiting(Table, id, Table[id].(setup := u));
      KeepsWaiting(Table, Table[id].(setup := u), id, Current);
      ExplainedSetup(Replies, Now(), id, u);
      Table := Table[id := Table[id].(setup := u)];
    }

    /** A command of the API: one record of the current context. Drawing may reach the front buffer. */
    method Call(words: nat, front: bool) returns (ok: bool)
      requires Inv()
      modifies this`Table, this`History, this`Asked, this`Released
      ensures Inv() && Table.Keys == old(Table).Keys && History.overtook == old(History).overtook
      ensures old(Current !in Table) ==> !ok && Stands() == old(Stands())
      ensures old(Current in Table) ==> ok == (words <= Limit.words - 8 && !Table[Current].failed)
      ensures ok ==> Entry(|old(History).issued|, Current, 8 + words) in Table[Current].packet
      ensures History.issued == old(History).issued + if ok then [Entry(|old(History).issued|, Current, 8 + words)] else []
      ensures old(Current in Table) ==> FrontAfter(old(Table), Current, ok && front, Table)
      ensures Explained(Replies, old(Now()), Now(), {}, {})
    {
      hide BetweenCalls, Explained, Named;
      ghost var m0 := Now();
      NamedNow(Limit, m0, Released, Current);
      ExplainedNone(Replies, m0);
      CurrentIsThere(Limit, History, Table, Released, Current, NextId);
      if Current == 0 {
        return false;
      }
      ok := CallRecord(words);
      ghost var m1 := Now();
      if ok && front {
        StillNamed(Replies, m0, m1, {}, {});
        CurrentThere(Limit, History, Table, Released, Current, NextId);
        ExplainedSetup(Replies, m1, Current, Table[Current].setup.(frontDirty := true));
        SetCurrent(Table[Current].setup.(frontDirty := true));
        Then(Replies, m0, m1, Now(), {}, {});
      }
    }

    method CallRecord(words: nat) returns (ok: bool)
      requires Inv() && Current in Table
      modifies this`Table, this`History, this`Asked, this`Released
      ensures Inv() && SameContexts(old(Table), Table) && History.overtook == old(History).overtook
      ensures Current in Table && Table[Current].setup == old(Table[Current].setup)
      ensures ok == (words <= Limit.words - 8 && !Table[Current].failed)
      ensures ok ==> Entry(|old(History).issued|, Current, 8 + words) in Table[Current].packet
      ensures History.issued == old(History).issued + if ok then [Entry(|old(History).issued|, Current, 8 + words)] else []
      ensures Explained(Replies, old(Now()), Now(), {}, {})
    {
      hide BetweenCalls, Waiting, AllWellPacked, LineAccounted, WellPacked, Behind, Increasing, Line, OthersKeep, SameContexts, Explained, Named;
      ghost var m0, released := Now(), Released;
      NamedNow(Limit, m0, Released, Current);
      CurrentIsThere(Limit, History, Table, Released, Current, NextId);
      CallStarts(Limit, History, Table, Released, Current, NextId);
      NothingBehind(Table, Released, Current);
      ok := Record(Current, words);
      SameSetups(m0.table, Table, Current);
      CallEnds(Limit, m0.log, m0.table, released, History, Table, Released, Current, NextId);
    }

    method SetCurrent(u: Setup)
      requires Inv() && Current in Table && u.drawable
      modifies this`Table
      ensures Inv() && Table == old(Table)[Current := old(Table)[Current].(setup := u)]
    {
      hide BetweenCalls;
      SetupBetweenCalls(Limit, History, Table, Released, Current, Current, NextId, u);
      Table := Table[Current := Table[Current].(setup := u)];
    }

    /** glBegin and glEnd: the record, then the state, whether the record was issued or not. */
    method Bracket(begin: bool)
      requires Inv()
      modifies this`Table, this`History, this`Asked, this`Released
      ensures Inv() && History.overtook == old(History).overtook
      ensures if old(Current !in Table || Table[Current].setup.inBegin == begin) then Stands() == old(Stands())
              else IssuesOne(Limit, old(Stands()), if begin then 2 else 1, Stands()) && Table[Current].setup == old(Table[Current].setup).(inBegin := begin)
      ensures Begun(Replies, old(Now()), Now(), Current)
    {
      hide BetweenCalls, Explained, Named, Begun;
      ghost var m0 := Now();
      NamedNow(Limit, m0, Released, Current);
      ExplainedNone(Replies, m0);
      ExplainedBegun(Replies, m0, m0, Current, begin);
      CurrentIsThere(Limit, History, Table, Released, Current, NextId);
      if Current == 0 || Table[Current].setup.inBegin == begin {
        return;
      }
      var recorded := Call(if begin then 2 else 1, false);
      CurrentThere(Limit, History, Table, Released, Current, NextId);
      ExplainedBegun(Replies, m0, Now(), Current, begin);
      SetCurrent(Table[Current].setup.(inBegin := begin));
    }

    /** glFlush: nothing to send, nothing sent. */
    method GlFlush()
      requires Inv()
      modifies this`Table, this`History, this`Asked, this`Released
      ensures Inv() && History.overtook == old(History).overtook
      ensures Explained(Replies, old(Now()), Now(), {}, {})
      ensures if old(Current !in Table || Table[Current].setup.inBegin) then Stands() == old(Stands()) else Waiting(Table, Current) == []
    {
      hide BetweenCalls, Waiting, Explained, AllWellPacked, Named;
      NamedNow(Limit, Now(), Released, Current);
      ExplainedNone(Replies, Now());
      CurrentIsThere(Limit, History, Table, Released, Current, NextId);
      if Current == 0 || Table[Current].setup.inBegin {
        return;
      }
      var c := Table[Current];
      CallStarts(Limit, History, Table, Released, Current, NextId);
      Untouched(Limit, Table, History.lost, Current);
      EmptyWaits(Table, Current);
      if c.used != 0 || c.setup.frontDirty || c.deferredFault {
        var flushed := FlushCurrent(Asynchronous);
      }
    }

    /** JglQuery: everything before the query, then the query, whose answer comes back. */
    method Query() returns (answered: bool)
      requires Inv()
      modifies this`Table, this`History, this`Asked, this`Released
      ensures Inv() && History.overtook == old(History).overtook
      ensures answered ==> Released == 0 && Waiting(Table, Current) == [] && History.issued == old(History).issued + [Entry(|old(History).issued|, Current, 12)]
      ensures if old(Current == 0 || Table[Current].setup.inBegin || Table[Current].failed) then !answered && Stands() == old(Stands())
              else Current in Table && Waiting(Table, Current) == []
                   && (!Table[Current].failed ==> History.issued == old(History).issued + [Entry(|old(History).issued|, Current, 12)])
                   && if Table[Current].failed then !answered else Asked > old(Asked) && answered == Replies(Asked - 1).taken
      ensures Calm(Replies, old(Asked), Asked) && old(Current != 0 && !Troubled(Table, Current) && !Table[Current].setup.inBegin) ==> answered
      ensures Explained(Replies, old(Now()), Now(), {}, {})
    {
      hide BetweenCalls, Waiting, Explained, Named, Calm, Troubled;
      ghost var m0 := Now();
      NamedNow(Limit, m0, Released, Current);
      ExplainedNone(Replies, m0);
      CurrentIsThere(Limit, History, Table, Released, Current, NextId);
      if Current != 0 {
        FailedIsTroubled(Table, Current);
      }
      if Current == 0 || Table[Current].setup.inBegin || Table[Current].failed {
        return false;
      }
      var recorded := QueryRecord();
      ghost var m1 := Now();
      StillHealthy(Replies, m0, m1, {}, {}, Current);
      if !recorded {
        FailedIsTroubled(Table, Current);
        FailedWaits(Table, Current);
        return false;
      }
      answered := QuerySend();
      Then(Replies, m0, m1, Now(), {}, {});
      StillHealthy(Replies, m0, Now(), {}, {}, Current);
      FailedIsTroubled(Table, Current);
      LastReplyClean(Replies, m0, m1, {}, {}, Asked);
    }

    /** Everything the context had to send, then the query's record alone in its packet. */
    method QueryRecord() returns (ok: bool)
      requires Inv() && Current in Table && !Table[Current].setup.inBegin && !Table[Current].failed
      modifies this`Table, this`History, this`Asked, this`Released
      ensures Inv() && Current in Table && History.overtook == old(History).overtook && ok == !Table[Current].failed
      ensures ok ==> Released == 0 && !Table[Current].deferredFault && History.issued == old(History).issued + [Entry(|old(History).issued|, Current, 12)]
      ensures Explained(Replies, old(Now()), Now(), {}, {})
    {
      hide BetweenCalls, Waiting, AllWellPacked, LineAccounted, WellPacked, Behind, Increasing, Line, OthersKeep, Flushed, Explained, StaysCalm, Named;
      ghost var m0, released := Now(), Released;
      NamedNow(Limit, m0, Released, Current);
      CallStarts(Limit, History, Table, Released, Current, NextId);
      ok := Flush(Current, Synchronous);
      FlushedSame(Limit, m0.log, m0.table, released, History, Table, Current);
      CallEnds(Limit, m0.log, m0.table, released, History, Table, Released, Current, NextId);
      if !ok {
        return;
      }
      LimitsHold(Limit, Table, History.lost);
      NothingBehind(Table, Released, Current);
      ghost var m1 := Now();
      StillNamed(Replies, m0, m1, {}, {});
      ok := Record(Current, 4);
      CallEnds(Limit, m1.log, m1.table, 0, History, Table, Released, Current, NextId);
      Then(Replies, m0, m1, Now(), {}, {});
    }

    /**
     * The query's own request, with the same retries. A refusal known to be the
     * query's own is over as an answer is; an earlier failure, an unknown outcome
     * or a malformed answer fails the context.
     */
    method QuerySend() returns (answered: bool)
      requires Inv() && Current in Table && !Table[Current].failed && !Table[Current].deferredFault && Released == 0
      modifies this`Table, this`History, this`Asked
      ensures Inv() && Waiting(Table, Current) == [] && Current in Table
      ensures History.issued == old(History).issued && History.overtook == old(History).overtook
      ensures var r := Replies(old(Asked));
              && answered == (r.taken && !r.malformed)
              && Table[Current].failed == (if r.taken then r.malformed else r.earlier || !r.known)
              && Table[Current].uncertain == (old(Table[Current].uncertain) || !(r.taken || r.known || r.earlier))
              && (r.taken || (r.known && !r.earlier) ==> History.accepted == old(History).accepted + old(Table[Current].packet))
      ensures Asked == old(Asked) + 1
      ensures Explained(Replies, old(Now()), Now(), {}, {})
    {
      hide BetweenCalls, Waiting, Explained, Named;
      CurrentIsThere(Limit, History, Table, Released, Current, NextId);
      NamedNow(Limit, Now(), Released, Current);
      ghost var m0 := Now();
      var r := Replies(Asked);
      var settled := QuerySettle();
      answered := r.taken && !r.malformed;
      if r.taken && r.malformed {
        assert !Clean(Replies(m0.asked));
        CurrentFails(Limit, History, Table, 0, Current, NextId);
        ExplainedMalformed(Replies, m0, Now(), Current);
        Table := Table[Current := Table[Current].(failed := true)];
        FailedWaits(Table, Current);
      }
    }

    /** The request: the driver has the record, unless an earlier failure or no outcome came back. */
    method QuerySettle() returns (ok: bool)
      requires Inv() && Current in Table && !Table[Current].failed && !Table[Current].deferredFault && Released == 0
      modifies this`Table, this`History, this`Asked
      ensures Inv() && Waiting(Table, Current) == [] && Current in Table && ok == !Table[Current].failed
      ensures History.issued == old(History).issued && History.overtook == old(History).overtook
      ensures var r := Replies(old(Asked));
              && ok == (r.taken || (r.known && !r.earlier))
              && Table[Current].uncertain == (old(Table[Current].uncertain) || !(r.taken || r.known || r.earlier))
      ensures ok ==> Table[Current].packet == [] && History.accepted == old(History).accepted + old(Table[Current].packet)
      ensures Asked == old(Asked) + 1
      ensures Explained(Replies, old(Now()), Now(), {}, {})
    {
      hide BetweenCalls, Waiting, AllWellPacked, LineAccounted, WellPacked, Sends, Flushed, Explained, StaysCalm, Named;
      CallStarts(Limit, History, Table, Released, Current, NextId);
      NamedNow(Limit, Now(), Released, Current);
      ghost var t, log, asked := Table, History, Asked;
      ZeroIsNone(Limit, t, log.lost);
      var r := Replies(Asked);
      var taken, known := Request(Stream(Current));
      ghost var t1 := Table;
      EntryKept(t, t1, Current);
      ok := Settle(Current, taken || (known && !r.earlier), known || r.earlier);
      SettledCalm(Replies, asked, t, t, t1, Table);
      SentAfterMarks(log, t, t1, History, Table, Current);
      SentAlone(log, t, History, Table, 0, Current);
      ExplainedFlushed(Limit, Replies, log, t, asked, 0, History, Table, Asked, Current, Current, NextId);
      FlushKeepsLine(Limit, log, t, 0, History, Table, Current, Current);
      FlushedSame(Limit, log, t, 0, History, Table, Current);
      CallEnds(Limit, log, t, 0, History, Table, 0, Current, NextId);
    }

    /** One operation of the API. */
    method Perform(op: Operation, ghost inside: bool) returns (ghost gone: set<nat>, ghost left: set<nat>)
      requires Inv()
      modifies this`Table, this`History, this`Asked, this`Released, this`Current, this`NextId
      ensures Inv() && Progress(Replies, old(Now()), old(Current), Now(), Current, gone, left)
      ensures Does(Limit, old(Stands()), op, Stands())
      ensures forall x :: x in gone ==> x > old(NextId) || op == Operation.Delete(x)
      ensures !op.Create? && !op.Delete? ==> History.overtook == old(History).overtook
      ensures StaysBracketed(op, inside) && old(OnlyInside(Table, Current, inside)) ==>
                left == {} && OnlyInside(Table, Current, InsideAfter(op, inside))
    {
      if op.Create? || op.MakeCurrent? || op.Delete? {
        gone, left := PerformOnContexts(op, inside);
      } else {
        gone, left := PerformOnCurrent(op, inside);
      }
    }

    method PerformOnCurrent(op: Operation, ghost inside: bool) returns (ghost gone: set<nat>, ghost left: set<nat>)
      requires !op.Create? && !op.MakeCurrent? && !op.Delete?
      requires Inv()
      modifies this`Table, this`History, this`Asked, this`Released, this`Current, this`NextId
      ensures Inv() && Progress(Replies, old(Now()), old(Current), Now(), Current, gone, left)
      ensures Does(Limit, old(Stands()), op, Stands())
      ensures forall x :: x in gone ==> x > old(NextId) || op == Operation.Delete(x)
      ensures !op.Create? && !op.Delete? ==> History.overtook == old(History).overtook
      ensures StaysBracketed(op, inside) && old(OnlyInside(Table, Current, inside)) ==>
                left == {} && OnlyInside(Table, Current, InsideAfter(op, inside))
    {
      hide BetweenCalls, Waiting, Explained, LossExplained, NamesOnce, Resumes, Calm, Troubled, LeavesSilently, Barred, Serials, LeftInBegin;
      ghost var m0, current := Now(), Current;
      NamedNow(Limit, m0, Released, Current);
      CurrentIsThere(Limit, History, Table, Released, Current, NextId);
      gone, left := {}, {};
      match op {
        case Call(words, front) => var called := Call(words, front);
        case Bracket(begin) =>
          Bracket(begin);
          BegunProgress(Replies, m0, Now(), Current, inside, begin);
          return;
        case Flush => GlFlush();
        case Query => var answered := Query();
      }
      ExplainedProgress(Replies, m0, current, Now(), Current, gone, left);
      StaysInside(Replies, m0, current, Now(), Current, gone, left, inside);
    }

    method PerformOnContexts(op: Operation, ghost inside: bool) returns (ghost gone: set<nat>, ghost left: set<nat>)
      requires op.Create? || op.MakeCurrent? || op.Delete?
      requires Inv()
      modifies this`Table, this`History, this`Asked, this`Released, this`Current, this`NextId
      ensures Inv() && Progress(Replies, old(Now()), old(Current), Now(), Current, gone, left)
      ensures Does(Limit, old(Stands()), op, Stands())
      ensures forall x :: x in gone ==> x > old(NextId) || op == Operation.Delete(x)
      ensures !op.Create? && !op.Delete? ==> History.overtook == old(History).overtook
      ensures StaysBracketed(op, inside) && old(OnlyInside(Table, Current, inside)) ==>
                left == {} && OnlyInside(Table, Current, InsideAfter(op, inside))
    {
      hide BetweenCalls, Waiting, Explained, LossExplained, NamesOnce, Resumes, Calm, Troubled, LeavesSilently, Barred, Serials;
      ghost var m0, current := Now(), Current;
      NamedNow(Limit, m0, Released, Current);
      CurrentIsThere(Limit, History, Table, Released, Current, NextId);
      gone, left := {}, {};
      match op {
        case Create(view) =>
          var id := Create(view);
          gone := {NextId};
        case MakeCurrent(id, view, bind) =>
          left := LeftInBegin(Table, Current);
          var made := MakeCurrent(id, view, bind);
          CurrentIsThere(Limit, History, Table, Released, Current, NextId);
        case Delete(id) =>
          gone, left := {id}, if id in Table && Table[id].setup.inBegin then {id} else {};
          var deleted, refused := Delete(id);
      }
      ExplainedProgress(Replies, m0, current, Now(), Current, gone, left);
      StaysInside(Replies, m0, current, Now(), Current, gone, left, inside);
    }

    /**
     * Any run of operations, whatever the driver answers: what it took is in
     * issue order, and every loss has its cause. A record that was lost is never
     * accepted later, and a context left inside Begin/End is never current again.
     */
    method Run(operations: seq<Operation>, ghost inside: bool) returns (ghost gone: set<nat>, ghost left: set<nat>)
      requires Inv()
      modifies this`Table, this`History, this`Asked, this`Released, this`Current, this`NextId
      ensures Inv() && SubmittedInOrder(History, Waiting(Table, Released) + Waiting(Table, Current))
      ensures Progress(Replies, old(Now()), old(Current), Now(), Current, gone, left)
      ensures exists states :: DoneInTurn(Limit, states, operations) && states[0] == old(Stands()) && states[|operations|] == Stands()
      ensures forall x :: x in gone ==> x > old(NextId) || Operation.Delete(x) in operations
      ensures (forall op :: op in operations ==> !op.Create? && !op.Delete?) ==> History.overtook == old(History).overtook
      ensures Bracketed(operations, inside) && old(OnlyInside(Table, Current, inside)) ==> left == {}
      ensures old(History).lost == {} && left == {} && !History.overtook
              && ((Calm(Replies, old(Asked), Asked) && old(forall x :: !Troubled(Table, x))) || (gone == {} && forall x :: x in Table ==> !Table[x].failed)) ==>
                History.accepted + (Waiting(Table, Released) + Waiting(Table, Current)) == History.issued
      ensures forall k :: k in old(History).lost ==> k < |History.issued| && History.issued[k] !in History.accepted
    {
      hide BetweenCalls, Waiting, Progress, NamesOnce, Calm, Troubled, Barred, Genuine, StreamOrdered, Increasing, Bracketed, OnlyInside, Does;
      ghost var m0, now := Now(), inside;
      NamedNow(Limit, m0, Released, Current);
      gone, left := {}, {};
      ProgressNone(Replies, m0, Current);
      ghost var states := [Stands()];
      var i := 0;
      assert operations[0..] == operations && operations[..i] == [];
      while i < |operations|
        invariant i <= |operations| && Inv() && Progress(Replies, m0, old(Current), Now(), Current, gone, left)
        invariant DoneInTurn(Limit, states, operations[..i]) && states[0] == old(Stands()) && states[i] == Stands()
        invariant forall x :: x in gone ==> x > old(NextId) || Operation.Delete(x) in operations
        invariant (forall op :: op in operations ==> !op.Create? && !op.Delete?) ==> History.overtook == old(History).overtook
        invariant Bracketed(operations, inside) && old(OnlyInside(Table, Current, inside)) ==>
                    left == {} && Bracketed(operations[i..], now) && OnlyInside(Table, Current, now)
      {
        ghost var m1, current := Now(), Current;
        BracketedNext(operations, i, now);
        ghost var gone1, left1 := Perform(operations[i], now);
        CurrentIsThere(Limit, History, Table, Released, Current, NextId);
        ProgressThen(Replies, m0, old(Current), m1, current, Now(), Current, gone, left, gone1, left1);
        ProgressNames(Replies, m0, old(Current), m1, current, gone, left);
        gone, left := gone + gone1, left + left1;
        now := InsideAfter(operations[i], now);
        assert operations[..i + 1] == operations[..i] + [operations[i]];
        states := states + [Stands()];
        i := i + 1;
      }
      assert operations[..i] == operations;
      LineInOrder(Limit, History, Table, Released, Current, NextId);
      ProgressNothingLost(Replies, m0, old(Current), Now(), Current, gone, left);
    }

    /** A context left inside Begin/End with records: whatever happens then, none of them is accepted and it is never current. */
    method LeaveInBegin(id: nat, view: View, bind: bool, operations: seq<Operation>)
      requires Inv() && LeftInBegin(Table, Current) != {}
      modifies this`Table, this`History, this`Asked, this`Released, this`Current, this`NextId
      ensures Inv() && Current != old(Current)
      ensures forall e :: e in old(Table[Current].packet) ==> e !in History.accepted
    {
      hide BetweenCalls, Explained, Barred, Calm, Troubled, LossExplained, NamesOnce;
      ghost var part, left := Table[Current].packet, Current;
      CallStarts(Limit, History, Table, Released, Current, NextId);
      PartIsIssued(Limit, History, Table, Released, Current);
      NamedNow(Limit, Now(), Released, Current);
      var made := MakeCurrent(id, view, bind);
      ghost var m1 := Now();
      assert Barred(Table[left]) by { InBeginBars(Table[left]); }
      ghost var gone, given := Run(operations, false);
      IssuedStays(Replies, m1, 0, Now(), Current, gone, given);
      assert forall e :: e in part ==> e.serial in m1.log.lost && m1.log.issued[e.serial] == e;
    }
  }

  // ---- That records are lost, and overtaken, does happen ----

  /** A driver that always answers cleanly, and healthy contexts, one of them current outside Begin/End; nothing is lost or out of order. */
  ghost predicate JustStarted(f: Frontend)
    reads f
  {
    && f.Inv() && f.History.lost == {} && !f.History.overtook && (forall k :: f.Replies(k) == CLEAN)
    && (forall x :: !Troubled(f.Table, x)) && f.Current in f.Table && !f.Table[f.Current].setup.inBegin
  }

  method FirstContext(limit: Limits, queued: bool, view: View) returns (f: Frontend)
    requires 32 <= limit.words && 0 < limit.records && Shown(view)
    ensures fresh(f) && f.Limit == limit && JustStarted(f)
  {
    hide BetweenCalls, Calm, Explained, LossExplained;
    f := new Frontend(limit, queued, n => CLEAN, n => Front(true, true));
    AlwaysCalm(f.Replies);
    ghost var m0 := f.Now();
    var id := f.Create(view);
    ghost var m1 := f.Now();
    var made := f.MakeCurrent(id, view, true);
    StillOutside(f.Replies, m1, f.Now(), {}, {}, id);
    ExplainedThen(f.Replies, m0, m1, f.Now(), {id}, {}, {}, {}, {id}, {});
    NothingYet(f.Replies, m0, f.Now(), {id});
    CurrentIsThere(limit, f.History, f.Table, f.Released, f.Current, f.NextId);
  }

  lemma StillOutside(replies: nat -> Reply, a: Moment, b: Moment, gone: set<nat>, left: set<nat>, id: nat)
    requires Explained(replies, a, b, gone, left)
    ensures id in b.table && b.table[id].setup.inBegin ==> id in a.table && a.table[id].setup.inBegin
  {
  }

  lemma NothingYet(replies: nat -> Reply, a: Moment, b: Moment, gone: set<nat>)
    requires Explained(replies, a, b, gone, {}) && a.log.lost == {} && (forall x :: !Troubled(a.table, x)) && Calm(replies, a.asked, b.asked)
    ensures b.log.lost == {} && forall x :: !Troubled(b.table, x)
  {
    NothingLost(replies, a, b, gone);
  }

  /** Create, make current, glBegin, one command, switch away: with clean answers only, records are lost. */
  method LossHappens(limit: Limits, queued: bool, view: View) returns (f: Frontend)
    requires 32 <= limit.words && 0 < limit.records && Shown(view)
    ensures f.Inv() && f.History.lost != {} && forall k :: f.Replies(k) == CLEAN
  {
    hide BetweenCalls, Calm, Troubled, Explained, Serials;
    f := FirstContext(limit, queued, view);
    AlwaysCalm(f.Replies);
    ghost var m0, id := f.Now(), f.Current;
    f.Bracket(true);
    BegunHealthy(f.Replies, m0, f.Now(), id, id);
    ghost var m1 := f.Now();
    var called := f.Call(0, false);
    StillHealthy(f.Replies, m1, f.Now(), {}, {}, id);
    HealthyWaits(f.Table, id);
    var made := f.MakeCurrent(0, view, false);
  }

  lemma HealthyWaits(t: Contexts, id: nat)
    requires id in t && !Troubled(t, id)
    ensures !t[id].failed && Waiting(t, id) == t[id].packet
  {
  }

  /** Create, make current, one command, create another: a record of the new context is accepted while an earlier one waits. */
  method OvertakingHappens(limit: Limits, queued: bool, view: View) returns (f: Frontend, ghost first: Entry, ghost second: Entry)
    requires 32 <= limit.words && 0 < limit.records && Shown(view)
    ensures f.Inv() && f.History.lost == {} && f.History.overtook && forall k :: f.Replies(k) == CLEAN
    ensures first in Waiting(f.Table, f.Current) && second in f.History.accepted && first.serial < second.serial
  {
    hide BetweenCalls, Calm, Troubled, Explained, Waiting;
    f := FirstContext(limit, queued, view);
    AlwaysCalm(f.Replies);
    ghost var m0, n := f.Now(), |f.History.issued|;
    var called := f.Call(0, false);
    first := Entry(n, f.Current, 8);
    ghost var m1 := f.Now();
    NothingYet(f.Replies, m0, m1, {});
    HealthyWaits(f.Table, f.Current);
    var id := f.Create(view);
    second := Entry(n + 1, id, 9);
    NothingYet(f.Replies, m1, f.Now(), {id});
    HealthyWaits(f.Table, id);
    IssuedIsAccepted(limit, f.History, f.Table, f.Released, f.Current, f.NextId, n + 1);
  }
}
