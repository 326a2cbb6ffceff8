/**
 * Why the frontend loses records (guest/opengl/frontend.cpp, lines 391-457,
 * 1437-1585): the driver's answers, and what a run of operations can lose.
 */
module LossCauses {
  import opened SubmissionLedger
  import opened PacketLine

  predicate Clean(r: Reply) {
    r.reports == [] && r.taken && !r.malformed
  }

  const CLEAN: Reply := Reply([], true, true, false, false)

  ghost predicate Calm(replies: nat -> Reply, from: nat, to: nat) {
    forall k: nat :: from <= k < to ==> Clean(replies(k))
  }

  /** Failed, or about to learn of a failure. */
  predicate Troubled(t: Contexts, id: nat) {
    id in t && (t[id].failed || t[id].deferredFault)
  }

  ghost predicate NoneWorse(t: Contexts, t2: Contexts) {
    forall x :: Troubled(t2, x) ==> Troubled(t, x)
  }

  /** Clean replies leave healthy contexts healthy. */
  ghost predicate StaysCalm(replies: nat -> Reply, from: nat, to: nat, t: Contexts, t2: Contexts) {
    from <= to && (Calm(replies, from, to) ==> NoneWorse(t, t2))
  }

  lemma StaysCalmThen(replies: nat -> Reply, from: nat, mid: nat, to: nat, t: Contexts, t1: Contexts, t2: Contexts)
    requires StaysCalm(replies, from, mid, t, t1) && StaysCalm(replies, mid, to, t1, t2)
    ensures StaysCalm(replies, from, to, t, t2)
  {
    hide Troubled, Clean;
    assert Calm(replies, from, to) ==> Calm(replies, from, mid) && Calm(replies, mid, to);
  }

  /** A request that is taken, after its reports, makes no context worse off. */
  lemma SettledCalm(replies: nat -> Reply, asked: nat, t: Contexts, t1: Contexts, t2: Contexts, t3: Contexts)
    requires NoneWorse(t, t1) && StaysCalm(replies, asked, asked + 1, t1, t2) && (replies(asked).taken ==> NoneWorse(t2, t3))
    ensures StaysCalm(replies, asked, asked + 1, t, t3)
  {
    hide Troubled;
    assert Calm(replies, asked, asked + 1) ==> Clean(replies(asked));
  }

  lemma StaysCalmSame(replies: nat -> Reply, at: nat, t: Contexts)
    ensures StaysCalm(replies, at, at, t, t) && NoneWorse(t, t)
  {
  }

  /** The frontend between two steps; `next` is the last Id given out. */
  datatype Moment = Moment(table: Contexts, log: Log, asked: nat, next: nat)

  ghost predicate Named(m: Moment) {
    forall x :: x in m.table ==> x <= m.next
  }

  /** Ids are never given out twice. */
  ghost predicate NamesOnce(a: Moment, b: Moment) {
    Named(a) && Named(b) && a.next <= b.next && forall x :: x in b.table ==> x in a.table || x > a.next
  }

  /** Begin/End is left only by ending it or by being deleted. */
  predicate Barred(c: Context) {
    c.setup.inBegin || c.setup.deleting
  }

  /** A context as wglMakeCurrent binds it: healthy, with its own drawable for the window, minimized or not. */
  ghost predicate Seated(c: Context, view: View, bind: bool) {
    && !c.failed && !Barred(c) && c.setup.created && c.setup.drawable && c.setup.attached && view.found
    && c.setup.view.window == view.window && (Shown(view) ==> bind && c.setup.view == view)
  }

  ghost predicate BeginsKept(t: Contexts, t2: Contexts) {
    forall x :: x in t2 ==>
      && (t2[x].setup.inBegin ==> x in t && t[x].setup.inBegin)
      && (x in t && Barred(t[x]) ==> Barred(t2[x]))
  }

  /**
   * From one moment to another: nothing issued, accepted or lost is taken
   * back. A record is lost only by a context of `left`, left or deleted inside
   * Begin/End, by one of `gone`, created or deleted meanwhile, or by one that
   * has failed since; if all replies are clean, only by those of `left` and
   * those in trouble before. Only contexts of `gone` can appear or recover.
   */
  ghost predicate LossExplained(replies: nat -> Reply, a: Moment, b: Moment, gone: set<nat>, left: set<nat>) {
    && a.log.issued <= b.log.issued && a.log.accepted <= b.log.accepted && a.log.lost <= b.log.lost
    && StaysCalm(replies, a.asked, b.asked, a.table, b.table)
    && (forall k :: k in b.log.lost && k !in a.log.lost ==> LostBy(b, k, gone + left) && (k < |b.log.issued|))
    && (Calm(replies, a.asked, b.asked) ==>
          forall k :: k in b.log.lost && k !in a.log.lost ==> LostEarlier(a, b, k, left))
    && (forall x :: x in a.table && a.table[x].failed && x !in gone ==> x in b.table && b.table[x].failed)
    && b.table.Keys <= a.table.Keys + gone
  }

  ghost predicate LostBy(b: Moment, k: nat, excused: set<nat>) {
    && k < |b.log.issued|
    && var id := b.log.issued[k].context; id in excused || (id in b.table && b.table[id].failed)
  }

  ghost predicate LostEarlier(a: Moment, b: Moment, k: nat, left: set<nat>) {
    && k < |b.log.issued|
    && var id := b.log.issued[k].context; id in left || Troubled(a.table, id)
  }

  /**
   * A context that has failed or is reported to have failed stays so, and of
   * the records issued before, the first `n`, none of its is accepted any more.
   */
  ghost predicate TroubleKept(a: Moment, b: Moment, gone: set<nat>, n: nat) {
    && (forall x :: Troubled(a.table, x) && x !in gone ==> Troubled(b.table, x))
    && (forall e :: e in b.log.accepted && e !in a.log.accepted && e.serial < n && Troubled(a.table, e.context) ==> e.context in gone)
  }

  ghost predicate Tracked(replies: nat -> Reply, a: Moment, b: Moment, gone: set<nat>, left: set<nat>) {
    LossExplained(replies, a, b, gone, left) && NamesOnce(a, b) && BeginsKept(a.table, b.table)
  }

  ghost predicate Explained(replies: nat -> Reply, a: Moment, b: Moment, gone: set<nat>, left: set<nat>) {
    Tracked(replies, a, b, gone, left) && TroubleKept(a, b, gone, |a.log.issued|)
  }

  lemma TroubleThen(a: Moment, b: Moment, c: Moment, gone1: set<nat>, gone2: set<nat>, gone: set<nat>, n: nat, m: nat)
    requires TroubleKept(a, b, gone1, n) && TroubleKept(b, c, gone2, m) && n <= m && gone1 + gone2 <= gone
    ensures TroubleKept(a, c, gone, n)
  {
    hide Troubled;
  }

  lemma LossThen(replies: nat -> Reply, a: Moment, b: Moment, c: Moment, gone1: set<nat>, left1: set<nat>,
                 gone2: set<nat>, left2: set<nat>, gone: set<nat>, left: set<nat>)
    requires LossExplained(replies, a, b, gone1, left1) && LossExplained(replies, b, c, gone2, left2)
    requires gone1 + gone2 <= gone && left1 + left2 <= left
    ensures LossExplained(replies, a, c, gone, left)
  {
    hide Clean;
    StaysCalmThen(replies, a.asked, b.asked, c.asked, a.table, b.table, c.table);
    assert Calm(replies, a.asked, c.asked) ==> Calm(replies, a.asked, b.asked) && Calm(replies, b.asked, c.asked);
    forall k | k in c.log.lost && k !in a.log.lost
      ensures LostBy(c, k, gone + left)
      ensures Calm(replies, a.asked, c.asked) ==> LostEarlier(a, c, k, left)
    {
      if k in b.log.lost {
        assert LostBy(b, k, gone1 + left1);
        assert Calm(replies, a.asked, b.asked) ==> LostEarlier(a, b, k, left1);
      } else {
        assert LostBy(c, k, gone2 + left2);
        assert Calm(replies, b.asked, c.asked) ==> LostEarlier(b, c, k, left2);
      }
    }
  }

  lemma TrackedThen(replies: nat -> Reply, a: Moment, b: Moment, c: Moment, gone1: set<nat>, left1: set<nat>,
                    gone2: set<nat>, left2: set<nat>, gone: set<nat>, left: set<nat>)
    requires Tracked(replies, a, b, gone1, left1) && Tracked(replies, b, c, gone2, left2)
    requires gone1 + gone2 <= gone && left1 + left2 <= left
    ensures Tracked(replies, a, c, gone, left)
  {
    hide LossExplained;
    assert forall x :: x in c.table && x in a.table ==> x in b.table;
    LossThen(replies, a, b, c, gone1, left1, gone2, left2, gone, left);
  }

  lemma ExplainedThen(replies: nat -> Reply, a: Moment, b: Moment, c: Moment, gone1: set<nat>, left1: set<nat>,
                      gone2: set<nat>, left2: set<nat>, gone: set<nat>, left: set<nat>)
    requires Explained(replies, a, b, gone1, left1) && Explained(replies, b, c, gone2, left2)
    requires gone1 + gone2 <= gone && left1 + left2 <= left
    ensures Explained(replies, a, c, gone, left)
  {
    assert |a.log.issued| <= |b.log.issued|;
    hide Tracked, TroubleKept;
    TrackedThen(replies, a, b, c, gone1, left1, gone2, left2, gone, left);
    TroubleThen(a, b, c, gone1, gone2, gone, |a.log.issued|, |b.log.issued|);
  }

  /** A cleanup request, whose packet is newer than the first moment, says nothing about the context's other records. */
  lemma ThenCleanup(replies: nat -> Reply, a: Moment, b: Moment, c: Moment, gone: set<nat>)
    requires Explained(replies, a, b, gone, {}) && Tracked(replies, b, c, {}, {}) && TroubleKept(b, c, {}, |a.log.issued|)
    ensures Explained(replies, a, c, gone, {})
  {
    hide Tracked, TroubleKept;
    TrackedThen(replies, a, b, c, gone, {}, {}, {}, gone, {});
    TroubleThen(a, b, c, gone, {}, gone, |a.log.issued|, |a.log.issued|);
  }

  lemma Then(replies: nat -> Reply, a: Moment, b: Moment, c: Moment, gone: set<nat>, left: set<nat>)
    requires Explained(replies, a, b, gone, left) && Explained(replies, b, c, {}, {})
    ensures Explained(replies, a, c, gone, left)
  {
    hide Explained;
    ExplainedThen(replies, a, b, c, gone, left, {}, {}, gone, left);
  }

  lemma StillNamed(replies: nat -> Reply, a: Moment, b: Moment, gone: set<nat>, left: set<nat>)
    requires Explained(replies, a, b, gone, left)
    ensures Named(a) && Named(b)
  {
  }

  /** Nothing is lost, and of the contexts only those of `gone` come, go or recover. */
  lemma ExplainedSame(replies: nat -> Reply, a: Moment, b: Moment, gone: set<nat>)
    requires b.asked == a.asked && a.log.issued <= b.log.issued && a.log.accepted == b.log.accepted && a.log.lost == b.log.lost
    requires b.table.Keys <= a.table.Keys + gone && NamesOnce(a, b)
    requires forall x :: x in a.table && x !in gone ==> x in b.table && b.table[x].failed == a.table[x].failed
    requires NoneWorse(a.table, b.table) && (forall x :: x !in gone && Troubled(a.table, x) ==> Troubled(b.table, x))
    requires BeginsKept(a.table, b.table)
    ensures forall left :: Explained(replies, a, b, gone, left)
  {
  }

  lemma ExplainedNone(replies: nat -> Reply, a: Moment)
    requires Named(a)
    ensures forall gone, left :: Explained(replies, a, a, gone, left)
  {
  }

  lemma ExplainedSetup(replies: nat -> Reply, a: Moment, id: nat, u: Setup)
    requires Named(a) && id in a.table && u.inBegin == a.table[id].setup.inBegin && (a.table[id].setup.deleting ==> u.deleting)
    ensures Explained(replies, a, a.(table := a.table[id := a.table[id].(setup := u)]), {}, {})
  {
    ExplainedSame(replies, a, a.(table := a.table[id := a.table[id].(setup := u)]), {});
  }

  lemma ExplainedRecord(replies: nat -> Reply, a: Moment, id: nat, e: Entry, overtook: bool)
    requires Named(a) && id in a.table
    ensures var b := a.(table := a.table[id := Appended(a.table[id], e)], log := a.log.(issued := a.log.issued + [e], overtook := overtook));
            Explained(replies, a, b, {}, {})
  {
    ExplainedSame(replies, a, a.(table := a.table[id := Appended(a.table[id], e)], log := a.log.(issued := a.log.issued + [e], overtook := overtook)), {});
  }

  function Cleared(c: Context): Context {
    c.(packet := [], used := 0, records := 0, failed := false)
  }

  lemma ExplainedCleared(replies: nat -> Reply, a: Moment, id: nat)
    requires Named(a) && id in a.table
    ensures Explained(replies, a, a.(table := a.table[id := Cleared(a.table[id])]), if a.table[id].failed then {id} else {}, {})
  {
    ExplainedSame(replies, a, a.(table := a.table[id := Cleared(a.table[id])]), if a.table[id].failed then {id} else {});
  }

  lemma ExplainedRemoved(replies: nat -> Reply, a: Moment, id: nat)
    requires Named(a)
    ensures Explained(replies, a, a.(table := a.table - {id}), {id}, {})
  {
    ExplainedSame(replies, a, a.(table := a.table - {id}), {id});
  }

  lemma ExplainedAdded(replies: nat -> Reply, a: Moment, view: View)
    requires Named(a)
    ensures Explained(replies, a, a.(table := a.table[a.next + 1 := Blank(view)], next := a.next + 1), {a.next + 1}, {})
  {
    ExplainedSame(replies, a, a.(table := a.table[a.next + 1 := Blank(view)], next := a.next + 1), {a.next + 1});
  }

  /** Begin/End starts or ends for the current context, whose record may be lost as any other's. */
  ghost predicate Begun(replies: nat -> Reply, a: Moment, b: Moment, current: nat) {
    && LossExplained(replies, a, b, {}, {}) && NamesOnce(a, b) && TroubleKept(a, b, {}, |a.log.issued|)
    && forall x :: x in b.table && x != current ==>
         && (b.table[x].setup.inBegin ==> x in a.table && a.table[x].setup.inBegin)
         && (x in a.table && Barred(a.table[x]) ==> Barred(b.table[x]))
  }

  /** Losses depend on which contexts are failed or about to fail, not on their setups. */
  lemma LossBySetup(replies: nat -> Reply, a: Moment, b: Moment, gone: set<nat>, left: set<nat>, id: nat, u: Setup)
    requires LossExplained(replies, a, b, gone, left) && id in b.table
    ensures LossExplained(replies, a, b.(table := b.table[id := b.table[id].(setup := u)]), gone, left)
  {
    hide Calm;
    var c := b.(table := b.table[id := b.table[id].(setup := u)]);
    assert forall x :: Troubled(c.table, x) ==> Troubled(b.table, x);
    forall k | k in c.log.lost && k !in a.log.lost
      ensures LostBy(c, k, gone + left)
      ensures Calm(replies, a.asked, c.asked) ==> LostEarlier(a, c, k, left)
    {
      assert LostBy(b, k, gone + left);
      assert Calm(replies, a.asked, b.asked) ==> LostEarlier(a, b, k, left);
    }
  }

  lemma TroubleBySetup(a: Moment, b: Moment, id: nat, u: Setup)
    requires TroubleKept(a, b, {}, |a.log.issued|) && id in b.table
    ensures TroubleKept(a, b.(table := b.table[id := b.table[id].(setup := u)]), {}, |a.log.issued|)
  {
    assert forall x :: Troubled(b.table, x) ==> Troubled(b.table[id := b.table[id].(setup := u)], x);
  }

  lemma ExplainedBegun(replies: nat -> Reply, a: Moment, b: Moment, current: nat, begin: bool)
    requires Explained(replies, a, b, {}, {})
    ensures Begun(replies, a, b, current)
    ensures current in b.table ==>
              Begun(replies, a, b.(table := b.table[current := b.table[current].(setup := b.table[current].setup.(inBegin := begin))]), current)
  {
    hide LossExplained, Barred, TroubleKept;
    if current in b.table {
      TroubleBySetup(a, b, current, b.table[current].setup.(inBegin := begin));
      LossBySetup(replies, a, b, {}, {}, current, b.table[current].setup.(inBegin := begin));
    }
  }

  /** The current context, with nothing to send, fails after an unclean reply. */
  lemma ExplainedMalformed(replies: nat -> Reply, a: Moment, b: Moment, id: nat)
    requires Explained(replies, a, b, {}, {}) && id in b.table && !Calm(replies, a.asked, b.asked)
    ensures Explained(replies, a, b.(table := b.table[id := b.table[id].(failed := true)]), {}, {})
  {
    hide LossExplained, Calm, TroubleKept;
    LossMalformed(replies, a, b, id);
    TroubleMalformed(a, b, id);
  }

  lemma TroubleMalformed(a: Moment, b: Moment, id: nat)
    requires TroubleKept(a, b, {}, |a.log.issued|) && id in b.table
    ensures TroubleKept(a, b.(table := b.table[id := b.table[id].(failed := true)]), {}, |a.log.issued|)
  {
    assert forall x :: Troubled(b.table, x) ==> Troubled(b.table[id := b.table[id].(failed := true)], x);
  }

  lemma LossMalformed(replies: nat -> Reply, a: Moment, b: Moment, id: nat)
    requires LossExplained(replies, a, b, {}, {}) && id in b.table && !Calm(replies, a.asked, b.asked)
    ensures LossExplained(replies, a, b.(table := b.table[id := b.table[id].(failed := true)]), {}, {})
  {
    hide Calm, NoneWorse;
    var c := b.(table := b.table[id := b.table[id].(failed := true)]);
    assert forall k :: LostBy(b, k, {} + {}) ==> LostBy(c, k, {} + {});
  }

  /** Trouble at one point of a run was there before, or a reply was not clean. */
  lemma TroubleBefore(replies: nat -> Reply, a: Moment, b: Moment, c: Moment, gone1: set<nat>, left1: set<nat>,
                      gone2: set<nat>, left2: set<nat>, id: nat)
    requires Explained(replies, a, b, gone1, left1) && Explained(replies, b, c, gone2, left2) && id in b.table && b.table[id].failed
    ensures Troubled(a.table, id) || !Calm(replies, a.asked, c.asked)
  {
    hide Clean;
    assert Calm(replies, a.asked, c.asked) ==> Calm(replies, a.asked, b.asked);
  }

  /** Clean answers leave a healthy context healthy. */
  lemma StillHealthy(replies: nat -> Reply, a: Moment, b: Moment, gone: set<nat>, left: set<nat>, id: nat)
    requires Explained(replies, a, b, gone, left)
    ensures Calm(replies, a.asked, b.asked) && !Troubled(a.table, id) ==> !Troubled(b.table, id)
  {
  }

  lemma FailedIsTroubled(t: Contexts, id: nat)
    ensures id in t && t[id].failed ==> Troubled(t, id)
  {
  }

  /** The request that follows is number `asked - 1`, clean if all are. */
  lemma LastReplyClean(replies: nat -> Reply, a: Moment, b: Moment, gone: set<nat>, left: set<nat>, asked: nat)
    requires Explained(replies, a, b, gone, left) && asked == b.asked + 1
    ensures a.asked <= b.asked && (Calm(replies, a.asked, asked) ==> Clean(replies(asked - 1)) && Calm(replies, a.asked, b.asked))
  {
  }

  lemma BegunHealthy(replies: nat -> Reply, a: Moment, b: Moment, current: nat, id: nat)
    requires Begun(replies, a, b, current)
    ensures Calm(replies, a.asked, b.asked) && !Troubled(a.table, id) ==> !Troubled(b.table, id)
  {
  }

  lemma AlwaysCalm(replies: nat -> Reply)
    requires forall k :: replies(k) == CLEAN
    ensures forall from, to :: Calm(replies, from, to)
  {
  }

  lemma CalmParts(replies: nat -> Reply, a: Moment, b: Moment, c: Moment, gone1: set<nat>, left1: set<nat>, gone2: set<nat>, left2: set<nat>)
    requires Explained(replies, a, b, gone1, left1) && Explained(replies, b, c, gone2, left2)
    ensures Calm(replies, a.asked, c.asked) ==> Calm(replies, a.asked, b.asked) && Calm(replies, b.asked, c.asked)
  {
    hide Clean;
  }

  lemma AcceptedStays(replies: nat -> Reply, a: Moment, b: Moment, gone: set<nat>, left: set<nat>, part: seq<Entry>)
    requires Explained(replies, a, b, gone, left)
    ensures (forall e :: e in part ==> e in a.log.accepted) ==> forall e :: e in part ==> e in b.log.accepted
  {
  }

  lemma NamedNow(l: Limits, m: Moment, released: nat, current: nat)
    requires BetweenCalls(l, m.log, m.table, released, current, m.next)
    ensures Named(m) && 0 !in m.table
  {
  }

  lemma EnteringNamed(l: Limits, m: Moment, released: nat, id: nat)
    requires Entering(l, m.log, m.table, released, id, m.next)
    ensures Named(m)
  {
  }

  lemma LeftNone(l: Limits, log: Log, t: Contexts, released: nat, next: nat)
    requires BetweenCalls(l, log, t, released, 0, next)
    ensures LeftInBegin(t, 0) == {} && 0 !in t
  {
  }

  lemma StillBarred(replies: nat -> Reply, a: Moment, b: Moment, gone: set<nat>, left: set<nat>, id: nat)
    requires Explained(replies, a, b, gone, left)
    ensures id in a.table && Barred(a.table[id]) && id in b.table ==> Barred(b.table[id])
  {
  }

  /** The entries of the line are issued records of their own context. */
  lemma LineIsIssued(l: Limits, log: Log, t: Contexts, released: nat, actor: nat, current: nat, id: nat, k: nat)
    requires AllWellPacked(l, t, log.lost) && LineAccounted(log, t, released, actor, current)
    requires (id == released || id == actor || id == current) && k in Serials(Waiting(t, id))
    ensures k < |log.issued| && log.issued[k].context == id
  {
    var e :| e in Waiting(t, id) && e.serial == k;
    assert e in Line(log, t, released, actor, current) && e.context == id by {
      WaitingIsOwn(l, t, log.lost, id);
      WaitingInLine(log, t, released, actor, current, id, e);
    }
  }

  lemma WaitingInLine(log: Log, t: Contexts, released: nat, actor: nat, current: nat, id: nat, e: Entry)
    requires (id == released || id == actor || id == current) && e in Waiting(t, id)
    ensures e in Line(log, t, released, actor, current)
  {
    assert e in Ahead(t, released, actor) || e in Behind(t, released, actor, current);
  }

  /** A flush loses only what failed contexts still had to send. */
  lemma TrackedFlushed(l: Limits, replies: nat -> Reply, log: Log, t: Contexts, asked: nat, released: nat,
                         log2: Log, t2: Contexts, asked2: nat, id: nat, current: nat, next: nat)
    requires Named(Moment(t, log, asked, next)) && AllWellPacked(l, t, log.lost) && LineAccounted(log, t, released, id, current)
    requires Flushed(log, t, released, log2, t2, id) && StaysCalm(replies, asked, asked2, t, t2)
    ensures Tracked(replies, Moment(t, log, asked, next), Moment(t2, log2, asked2, next), {}, {})
  {
    hide LineAccounted, WellPacked, Serials;
    var first := if released == id then 0 else released;
    WaitingZero(t);
    forall k | k in log2.lost && k !in log.lost
      ensures LostBy(Moment(t2, log2, asked2, next), k, {})
      ensures Calm(replies, asked, asked2) ==> LostEarlier(Moment(t, log, asked, next), Moment(t2, log2, asked2, next), k, {})
    {
      var x := if k in LostOf(t, t2, first) then first else id;
      assert Troubled(t2, x);
      assert first == 0 ==> LostOf(t, t2, first) == {} by { assert Serials([]) == {}; }
      LineIsIssued(l, log, t, released, id, current, x, k);
    }
  }

  /** Nor does it accept what a reported context still had to send. */
  lemma ExplainedFlushed(l: Limits, replies: nat -> Reply, log: Log, t: Contexts, asked: nat, released: nat,
                         log2: Log, t2: Contexts, asked2: nat, id: nat, current: nat, next: nat)
    requires Named(Moment(t, log, asked, next)) && AllWellPacked(l, t, log.lost) && LineAccounted(log, t, released, id, current)
    requires Flushed(log, t, released, log2, t2, id) && StaysCalm(replies, asked, asked2, t, t2)
    requires TakesFault(t, t2, if released == id then 0 else released) && TakesFault(t, t2, id)
    ensures Explained(replies, Moment(t, log, asked, next), Moment(t2, log2, asked2, next), {}, {})
  {
    hide Tracked, TroubleKept, LineAccounted;
    TrackedFlushed(l, replies, log, t, asked, released, log2, t2, asked2, id, current, next);
    TroubleFlushed(l, log, t, asked, released, log2, t2, asked2, id, next, |log.issued|);
  }

  lemma TroubleFlushed(l: Limits, log: Log, t: Contexts, asked: nat, released: nat, log2: Log, t2: Contexts, asked2: nat, id: nat, next: nat, n: nat)
    requires AllWellPacked(l, t, log.lost) && Flushed(log, t, released, log2, t2, id)
    requires TakesFault(t, t2, if released == id then 0 else released)
    requires TakesFault(t, t2, id) || (id in t && forall e :: e in t[id].packet ==> e.serial >= n)
    ensures TroubleKept(Moment(t, log, asked, next), Moment(t2, log2, asked2, next), {}, n)
  {
    hide Serials;
    var first := if released == id then 0 else released;
    forall e | e in log2.accepted && e !in log.accepted && e.serial < n
      ensures !Troubled(t, e.context)
    {
      if e in Outcome(t, t2, first) {
        OutcomeHealthy(l, t, t2, log.lost, first, id, e);
      } else {
        OutcomeHealthy(l, t, t2, log.lost, id, first, e);
      }
    }
  }

  lemma OutcomeHealthy(l: Limits, t: Contexts, t2: Contexts, lost: set<nat>, id: nat, other: nat, e: Entry)
    requires AllWellPacked(l, t, lost) && Sends(t, t2, {id, other}) && e in Outcome(t, t2, id) && TakesFault(t, t2, id)
    ensures !Troubled(t, e.context)
  {
    assert WellPacked(l, id, t[id], lost);
  }

  /** A failure reported for a context loses what it still had to send. */
  lemma ExplainedFault(l: Limits, replies: nat -> Reply, log: Log, t: Contexts, asked: nat, released: nat, id: nat, next: nat)
    requires Named(Moment(t, log, asked, next)) && AllWellPacked(l, t, log.lost) && LineAccounted(log, t, released, 0, 0) && id in t
    ensures var t2 := Faulted(t, id);
            Explained(replies, Moment(t, log, asked, next), Moment(t2, log.(lost := log.lost + LostOf(t, t2, id)), asked, next), {}, {})
  {
    hide Ledger, WellPacked, Serials;
    var t2 := Faulted(t, id);
    var b := Moment(t2, log.(lost := log.lost + LostOf(t, t2, id)), asked, next);
    forall k | k in b.log.lost && k !in log.lost
      ensures LostBy(b, k, {}) && t[id].deferredFault
    {
      if id != released {
        UnlinedLoss(l, t, log.lost, released, id, 0);
      }
      LineIsIssued(l, log, t, released, 0, 0, id, k);
    }
  }

  /** A context left inside Begin/End loses what it still had to send. */
  lemma ExplainedLeft(l: Limits, replies: nat -> Reply, log: Log, t: Contexts, asked: nat, released: nat, current: nat, next: nat)
    requires Named(Moment(t, log, asked, next)) && AllWellPacked(l, t, log.lost) && LineAccounted(log, t, released, current, current) && current in t
    ensures Explained(replies, Moment(t, log, asked, next), Moment(t, log.(lost := log.lost + Serials(Waiting(t, current))), asked, next), {}, {current})
  {
    hide LineAccounted, WellPacked, Serials;
    var b := Moment(t, log.(lost := log.lost + Serials(Waiting(t, current))), asked, next);
    forall k | k in b.log.lost && k !in log.lost
      ensures LostBy(b, k, {} + {current}) && b.log.issued[k].context == current
    {
      LineIsIssued(l, log, t, released, current, current, current, k);
    }
  }

  /** A deleted context loses what it still had to send: nothing, unless it is inside Begin/End. */
  lemma ExplainedErased(l: Limits, replies: nat -> Reply, log: Log, t: Contexts, asked: nat, released: nat, id: nat, current: nat, next: nat)
    requires Named(Moment(t, log, asked, next)) && AllWellPacked(l, t, log.lost) && LineAccounted(log, t, released, current, current) && id in t && id != current
    ensures var left := if t[id].setup.inBegin then {id} else {};
            t[id].setup.inBegin || Waiting(t, id) == [] ==>
              Explained(replies, Moment(t, log, asked, next),
                        Moment(t[id := Erased(t[id])], log.(lost := log.lost + Serials(Waiting(t, id))), asked, next), {id}, left)
  {
    hide Ledger, WellPacked, Serials;
    var b := Moment(t[id := Erased(t[id])], log.(lost := log.lost + Serials(Waiting(t, id))), asked, next);
    if Waiting(t, id) == [] {
      assert Serials([]) == {};
    }
    forall k | k in b.log.lost && k !in log.lost
      ensures LostBy(b, k, {id}) && b.log.issued[k].context == id
    {
      if id != released {
        UnlinedLoss(l, t, log.lost, released, id, current);
      }
      LineIsIssued(l, log, t, released, current, current, id, k);
    }
  }

  /** The context left inside Begin/End with records to send. */
  function LeftInBegin(t: Contexts, current: nat): set<nat> {
    if current in t && t[current].setup.inBegin && !t[current].failed then {current} else {}
  }

  /** What waited with a context and waits no longer was accepted, unless the context failed or is excused. */
  lemma WaitedIsAccepted(l: Limits, replies: nat -> Reply, a: Moment, released: nat, current: nat,
                         b: Moment, released2: nat, current2: nat, gone: set<nat>, left: set<nat>, id: nat)
    requires BetweenCalls(l, a.log, a.table, released, current, a.next) && BetweenCalls(l, b.log, b.table, released2, current2, b.next)
    requires LossExplained(replies, a, b, gone, left) && id !in gone + left && (id == released || id == current)
    requires id in b.table && !b.table[id].failed && Waiting(b.table, id) == []
    ensures forall e :: e in Waiting(a.table, id) ==> e in b.log.accepted
  {
    hide WellPacked, OnlyLineWaits, StreamOrdered, Increasing, Serials, StaysCalm, Line;
    forall e | e in Waiting(a.table, id)
      ensures e in b.log.accepted
    {
      WaitingIsOwn(l, a.table, a.log.lost, id);
      WaitingInLine(a.log, a.table, released, current, current, id, e);
      var i :| 0 <= i < |Line(a.log, a.table, released, current, current)| && Line(a.log, a.table, released, current, current)[i] == e;
      assert e.serial !in a.log.lost && b.log.issued[e.serial] == e && e.context == id;
      assert e.serial in b.log.lost ==> LostBy(b, e.serial, gone + left);
      assert e in Line(b.log, b.table, released2, current2, current2);
      InLineParts(l, b.log, b.table, released2, current2, e);
    }
  }

  lemma WaitedBeforeFlush(l: Limits, replies: nat -> Reply, a: Moment, released: nat, current: nat,
                          b: Moment, released2: nat, current2: nat, id: nat)
    requires BetweenCalls(l, a.log, a.table, released, current, a.next) && BetweenCalls(l, b.log, b.table, released2, current2, b.next)
    requires Explained(replies, a, b, {}, {}) && id in a.table && !a.table[id].setup.inBegin
    requires id in b.table && !b.table[id].failed && Waiting(b.table, id) == []
    ensures forall e :: e in Waiting(a.table, id) ==> e in b.log.accepted
  {
    hide BetweenCalls, Waiting, LossExplained;
    if id != current {
      WaitsWhere(l, a.log, a.table, released, id, current, a.next);
    }
    if Waiting(a.table, id) != [] {
      WaitedIsAccepted(l, replies, a, released, current, b, released2, current2, {}, {}, id);
    }
  }

  /** An issued record that is not lost was accepted once its context has nothing to send. */
  lemma IssuedIsAccepted(l: Limits, log: Log, t: Contexts, released: nat, current: nat, nextId: nat, k: nat)
    requires BetweenCalls(l, log, t, released, current, nextId) && k < |log.issued| && k !in log.lost
    requires Waiting(t, log.issued[k].context) == []
    ensures log.issued[k] in log.accepted
  {
    hide WellPacked, OnlyLineWaits, StreamOrdered, Increasing, Genuine, Line;
    assert log.issued[k] in Line(log, t, released, current, current);
    InLineParts(l, log, t, released, current, log.issued[k]);
  }

  lemma InLineParts(l: Limits, log: Log, t: Contexts, released: nat, current: nat, e: Entry)
    requires AllWellPacked(l, t, log.lost) && e in Line(log, t, released, current, current)
    ensures e in log.accepted || e in Waiting(t, e.context)
  {
    WaitingIsOwn(l, t, log.lost, released);
    WaitingIsOwn(l, t, log.lost, current);
  }

  // ---- A run of operations ----

  datatype Operation =
    | Call(words: nat, front: bool)
    | Bracket(begin: bool)
    | Flush
    | Query
    | Create(view: View)
    | MakeCurrent(id: nat, view: View, bind: bool)
    | Delete(id: nat)

  /** The frontend between two operations. */
  datatype Standing = Standing(at: Moment, released: nat, current: nat)

  ghost predicate IssuesOne(l: Limits, a: Standing, words: nat, b: Standing) {
    && a.current in b.at.table
    && b.at.log.issued == a.at.log.issued
                          + if words + 8 <= l.words && !b.at.table[a.current].failed then [Entry(|a.at.log.issued|, a.current, 8 + words)] else []
  }

  /** Drawing that may reach the front buffer marks it; nothing else of the context's setup changes. */
  ghost predicate FrontAfter(t: Contexts, id: nat, drawn: bool, t2: Contexts) {
    id in t && id in t2 && t2[id].setup == t[id].setup.(frontDirty := t[id].setup.frontDirty || drawn)
  }

  /** What each operation issues, and which context is current afterwards. */
  ghost predicate Does(l: Limits, a: Standing, op: Operation, b: Standing) {
    var id, idle := a.current, a.current !in a.at.table;
    match op
    case Call(words, front) =>
      b.current == id && if idle then b == a else IssuesOne(l, a, words, b) && FrontAfter(a.at.table, id, front && b.at.log.issued != a.at.log.issued, b.at.table)
    case Bracket(begin) =>
      b.current == id && if idle || a.at.table[id].setup.inBegin == begin then b == a
                         else IssuesOne(l, a, if begin then 2 else 1, b) && b.at.table[id].setup == a.at.table[id].setup.(inBegin := begin)
    case Flush =>
      b.current == id && if idle || a.at.table[id].setup.inBegin then b == a else Waiting(b.at.table, id) == []
    case Query =>
      b.current == id && if idle || a.at.table[id].setup.inBegin || a.at.table[id].failed then b == a
                         else
                           && id in b.at.table && Waiting(b.at.table, id) == []
                           && (!b.at.table[id].failed ==> b.at.log.issued == a.at.log.issued + [Entry(|a.at.log.issued|, id, 12)])
    case Create(view) =>
      && b.current == id && b.at.next == a.at.next + 1
      && b.at.log.issued == a.at.log.issued + [Entry(|a.at.log.issued|, b.at.next, 9)]
    case MakeCurrent(new_, view, bind) =>
      && b.at.next == a.at.next && b.current in {0, new_} && (LeftInBegin(a.at.table, id) != {} ==> b.current == 0)
      && (b.current != 0 ==> new_ in b.at.table && Seated(b.at.table[new_], view, bind) && (new_ in a.at.table ==> !Barred(a.at.table[new_])))
    case Delete(gone) =>
      && b.at.next == a.at.next && b.current == (if gone == id then 0 else id)
      && (gone in b.at.table ==> b.at.table[gone].setup.deleting)
  }

  /** The operations are done one after the other. */
  ghost predicate DoneInTurn(l: Limits, states: seq<Standing>, operations: seq<Operation>) {
    |states| == |operations| + 1 && forall i :: 0 <= i < |operations| ==> Does(l, states[i], operations[i], states[i + 1])
  }

  /** A context in Begin/End or being deleted that is not current never becomes current. */
  ghost predicate KeptOut(t: Contexts, current: nat, t2: Contexts, current2: nat) {
    forall x :: x in t && Barred(t[x]) && x != current ==> x != current2 && (x in t2 ==> Barred(t2[x]))
  }

  ghost predicate Progress(replies: nat -> Reply, a: Moment, current: nat, b: Moment, current2: nat, gone: set<nat>, left: set<nat>) {
    && LossExplained(replies, a, b, gone, left) && NamesOnce(a, b) && KeptOut(a.table, current, b.table, current2)
    && TroubleKept(a, b, gone, |a.log.issued|)
  }

  lemma ProgressThen(replies: nat -> Reply, a: Moment, x: nat, b: Moment, y: nat, c: Moment, z: nat, gone1: set<nat>, left1: set<nat>,
                     gone2: set<nat>, left2: set<nat>)
    requires Progress(replies, a, x, b, y, gone1, left1) && Progress(replies, b, y, c, z, gone2, left2) 
    requires 0 !in a.table && (z in c.table || z == 0)
    ensures Progress(replies, a, x, c, z, gone1 + gone2, left1 + left2)
  {
    assert |a.log.issued| <= |b.log.issued|;
    hide LossExplained, Barred, TroubleKept;
    TroubleThen(a, b, c, gone1, gone2, gone1 + gone2, |a.log.issued|, |b.log.issued|);
    LossThen(replies, a, b, c, gone1, left1, gone2, left2, gone1 + gone2, left1 + left2);
  }

  lemma ExplainedProgress(replies: nat -> Reply, a: Moment, current: nat, b: Moment, current2: nat, gone: set<nat>, left: set<nat>)
    requires Explained(replies, a, b, gone, left) && 0 !in a.table
    requires current2 == current || (current2 in a.table ==> !Barred(a.table[current2]))
    ensures Progress(replies, a, current, b, current2, gone, left)
  {
    hide LossExplained, Barred;
  }

  /** Begin/End is left only by glEnd: no context is switched or deleted inside it. */
  predicate StaysBracketed(op: Operation, inside: bool) {
    op.MakeCurrent? || op.Delete? ==> !inside
  }

  predicate InsideAfter(op: Operation, inside: bool) {
    match op
    case Bracket(begin) => begin
    case MakeCurrent(_, _, _) => false
    case _ => inside
  }

  predicate Bracketed(operations: seq<Operation>, inside: bool) {
    operations != [] ==>
      StaysBracketed(operations[0], inside) && Bracketed(operations[1..], InsideAfter(operations[0], inside))
  }

  ghost predicate OnlyInside(t: Contexts, current: nat, inside: bool) {
    forall x :: x in t && t[x].setup.inBegin ==> x == current && inside
  }

  /** With clean replies, or when no context has failed, created ones and deleted ones aside, nothing is lost. */
  lemma NothingLost(replies: nat -> Reply, a: Moment, b: Moment, gone: set<nat>)
    requires LossExplained(replies, a, b, gone, {}) && a.log.lost == {}
    requires (Calm(replies, a.asked, b.asked) && forall x :: !Troubled(a.table, x)) || (gone == {} && forall x :: x in b.table ==> !b.table[x].failed)
    ensures b.log.lost == {}
  {
    if k: nat :| k in b.log.lost {
      assert false;
    }
  }

  lemma ProgressNone(replies: nat -> Reply, a: Moment, current: nat)
    requires Named(a)
    ensures Progress(replies, a, current, a, current, {}, {})
  {
  }

  lemma ProgressNames(replies: nat -> Reply, a: Moment, x: nat, b: Moment, y: nat, gone: set<nat>, left: set<nat>)
    requires Progress(replies, a, x, b, y, gone, left)
    ensures a.next <= b.next
  {
  }

  lemma ProgressNothingLost(replies: nat -> Reply, a: Moment, x: nat, b: Moment, y: nat, gone: set<nat>, left: set<nat>)
    requires Progress(replies, a, x, b, y, gone, left)
    ensures a.log.lost <= b.log.lost
    ensures a.log.lost == {} && left == {}
            && ((Calm(replies, a.asked, b.asked) && forall x :: !Troubled(a.table, x)) || (gone == {} && forall x :: x in b.table ==> !b.table[x].failed)) ==>
              b.log.lost == {}
  {
    hide LossExplained;
    assert a.log.lost <= b.log.lost by { LossOnlyGrows(replies, a, b, gone, left); }
    if a.log.lost == {} && left == {}
       && ((Calm(replies, a.asked, b.asked) && forall x :: !Troubled(a.table, x)) || (gone == {} && forall x :: x in b.table ==> !b.table[x].failed)) {
      NothingLost(replies, a, b, gone);
    }
  }

  lemma LossOnlyGrows(replies: nat -> Reply, a: Moment, b: Moment, gone: set<nat>, left: set<nat>)
    requires LossExplained(replies, a, b, gone, left)
    ensures a.log.lost <= b.log.lost
  {
  }

  lemma BegunProgress(replies: nat -> Reply, a: Moment, b: Moment, current: nat, inside: bool, begin: bool)
    requires Begun(replies, a, b, current) && 0 !in a.table
    requires if current == 0 then b == a else current in b.table && b.table[current].setup.inBegin == begin
    ensures Progress(replies, a, current, b, current, {}, {})
    ensures OnlyInside(a.table, current, inside) ==> OnlyInside(b.table, current, begin)
  {
    hide LossExplained;
  }

  lemma StaysInside(replies: nat -> Reply, a: Moment, current: nat, b: Moment, current2: nat, gone: set<nat>, left: set<nat>, inside: bool)
    requires Explained(replies, a, b, gone, left)
    ensures OnlyInside(a.table, current, inside) && (current2 == current || !inside) ==> OnlyInside(b.table, current2, inside)
  {
    hide LossExplained, NamesOnce;
  }

  lemma BracketedNext(operations: seq<Operation>, i: nat, inside: bool)
    requires i < |operations|
    ensures Bracketed(operations[i..], inside) ==>
              StaysBracketed(operations[i], inside) && Bracketed(operations[i + 1..], InsideAfter(operations[i], inside))
  {
    assert operations[i..][1..] == operations[i + 1..];
  }

  lemma IssuedStays(replies: nat -> Reply, a: Moment, x: nat, b: Moment, y: nat, gone: set<nat>, left: set<nat>)
    requires Progress(replies, a, x, b, y, gone, left)
    ensures a.log.issued <= b.log.issued
  {
  }

  lemma InBeginBars(c: Context)
    requires c.setup.inBegin
    ensures Barred(c)
  {
  }

  /** What the current context has still to send was issued, each record at its serial. */
  lemma PartIsIssued(l: Limits, log: Log, t: Contexts, released: nat, current: nat)
    requires AllWellPacked(l, t, log.lost) && LineAccounted(log, t, released, current, current) && current in t && !t[current].failed
    ensures forall e :: e in t[current].packet ==> e.serial < |log.issued| && log.issued[e.serial] == e
  {
    forall e | e in t[current].packet
      ensures e.serial < |log.issued| && log.issued[e.serial] == e
    {
      WaitingInLine(log, t, released, current, current, current, e);
    }
  }
}
