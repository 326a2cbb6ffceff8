/**
 * The failures of queued batches whose requests already returned
 * (guest/include/dg-gl-queue.h, lines 24-27 and 90-131): a table of sixteen
 * records, each reported once to its client.
 */
module FaultTable {
  import opened Words

  const FAULTS: nat := 16

  /** A free record has token zero. */
  datatype Fault = Fault(Token: u32, Stream: u32, Error: u32, Sequence: u32)

  datatype Key = Key(Token: u32, Stream: u32)
  datatype Failure = Failure(Error: u32, Sequence: u32)

  predicate Matches(f: Fault, token: u32, stream: u32) {
    f.Token == token && (stream == 0 || f.Stream == stream)
  }

  /** The first record at or after i of the token (and stream, unless zero), or |f|. */
  function FirstMatch(f: seq<Fault>, token: u32, stream: u32, i: nat): (k: nat)
    requires i <= |f|
    ensures i <= k <= |f| && (k < |f| ==> Matches(f[k], token, stream))
    ensures forall j :: i <= j < k ==> !Matches(f[j], token, stream)
    decreases |f| - i
  {
    if i == |f| || Matches(f[i], token, stream) then i else FirstMatch(f, token, stream, i + 1)
  }

  function AddFault(f: seq<Fault>, token: u32, stream: u32, error: u32, sequence: u32): (r: seq<Fault>)
    ensures |r| == |f|
  {
    var free := FirstMatch(f, 0, 0, 0);
    if token == 0 || stream == 0 || FirstMatch(f, token, stream, 0) < |f| || free == |f| then f
    else f[free := Fault(token, stream, error, sequence)]
  }

  function TakenIndex(f: seq<Fault>, token: u32, stream: u32): (i: nat)
    ensures i <= |f|
  {
    if token == 0 then |f| else FirstMatch(f, token, stream, 0)
  }

  /** TakeFault frees the record it reports. */
  function TakeFault(f: seq<Fault>, token: u32, stream: u32): (r: seq<Fault>)
    ensures |r| == |f|
  {
    var i := TakenIndex(f, token, stream);
    if i == |f| then f else f[i := f[i].(Token := 0, Stream := 0)]
  }

  function DropClient(f: seq<Fault>, token: u32): (r: seq<Fault>)
    ensures |r| == |f|
  {
    seq(|f|, i requires 0 <= i < |f| => if f[i].Token == token then f[i].(Token := 0, Stream := 0) else f[i])
  }

  /** One record per (token, stream). */
  ghost predicate Distinct(f: seq<Fault>) {
    && (forall i :: 0 <= i < |f| && f[i].Token != 0 ==> f[i].Stream != 0)
    && forall i, j :: 0 <= i < j < |f| && f[i].Token != 0 ==> f[i].Token != f[j].Token || f[i].Stream != f[j].Stream
  }

  ghost predicate Held(f: seq<Fault>, k: Key, v: Failure) {
    k.Token != 0 && Fault(k.Token, k.Stream, v.Error, v.Sequence) in f
  }

  ghost predicate HeldKey(f: seq<Fault>, k: Key) {
    k.Token != 0 && exists i :: 0 <= i < |f| && f[i].Token == k.Token && f[i].Stream == k.Stream
  }

  ghost predicate Full(f: seq<Fault>) {
    forall i :: 0 <= i < |f| ==> f[i].Token != 0
  }

  /**
   * AddFault: a later failure of the same stream does not displace what is held,
   * nor do other streams' records change; only a full table loses a first failure.
   */
  lemma AddHoldsFirst(f: seq<Fault>, token: u32, stream: u32, error: u32, sequence: u32, k: Key, v: Failure)
    requires Distinct(f)
    ensures var f' := AddFault(f, token, stream, error, sequence);
            Distinct(f') &&
            (Held(f', k, v) <==>
              (Held(f, k, v)
               || (k == Key(token, stream) && v == Failure(error, sequence) && token != 0 && stream != 0
                   && !HeldKey(f, k) && !Full(f))))
  {
    var f' := AddFault(f, token, stream, error, sequence);
    var free, at := FirstMatch(f, 0, 0, 0), FirstMatch(f, token, stream, 0);
    if token != 0 && stream != 0 && at == |f| && free < |f| {
      var r := Fault(k.Token, k.Stream, v.Error, v.Sequence);
      assert f'[free] == Fault(token, stream, error, sequence);
      assert forall i :: 0 <= i < |f| && i != free ==> f'[i] == f[i];
      assert r in f && k.Token != 0 ==> r in f' by {
        if r in f && k.Token != 0 {
          var i :| 0 <= i < |f| && f[i] == r;
          assert f'[i] == r;
        }
      }
    } else if token != 0 && at < |f| {
      assert HeldKey(f, Key(token, f[at].Stream));
    }
  }

  /** TakeFault reports a held failure of the client (and stream) if there is one, and drops exactly it. */
  lemma TakeReportsOnce(f: seq<Fault>, token: u32, stream: u32, k: Key, v: Failure)
    requires Distinct(f)
    ensures var i, f' := TakenIndex(f, token, stream), TakeFault(f, token, stream);
            && Distinct(f')
            && (i < |f| ==> Held(f, Key(f[i].Token, f[i].Stream), Failure(f[i].Error, f[i].Sequence)))
            && (i < |f| ==> f[i].Token == token && (stream == 0 || f[i].Stream == stream))
            && (i == |f| ==> f' == f && !(Held(f, k, v) && k.Token == token && (stream == 0 || k.Stream == stream)))
            && (Held(f', k, v) <==> Held(f, k, v) && !(i < |f| && k == Key(f[i].Token, f[i].Stream)))
  {
    var i, f' := TakenIndex(f, token, stream), TakeFault(f, token, stream);
    var r := Fault(k.Token, k.Stream, v.Error, v.Sequence);
    if i < |f| {
      assert f[i] in f && f[i] == Fault(f[i].Token, f[i].Stream, f[i].Error, f[i].Sequence);
      assert forall j :: 0 <= j < |f| && j != i ==> f'[j] == f[j];
      if Held(f, k, v) && k != Key(f[i].Token, f[i].Stream) {
        var j :| 0 <= j < |f| && f[j] == r;
        assert f'[j] == r;
      }
    } else if Held(f, k, v) {
      var j :| 0 <= j < |f| && f[j] == r;
      assert !(k.Token == token && (stream == 0 || k.Stream == stream));
    }
  }

  lemma DropForgetsClient(f: seq<Fault>, token: u32, k: Key, v: Failure)
    requires Distinct(f)
    ensures Distinct(DropClient(f, token))
    ensures Held(DropClient(f, token), k, v) <==> Held(f, k, v) && k.Token != token
  {
    var f', r := DropClient(f, token), Fault(k.Token, k.Stream, v.Error, v.Sequence);
    if Held(f, k, v) && k.Token != token {
      var j :| 0 <= j < |f| && f[j] == r;
      assert f'[j] == r;
    }
  }

  datatype Event =
    | Failed(token: u32, stream: u32, error: u32, sequence: u32)
    | Taken(token: u32, stream: u32)
    | Dropped(token: u32)

  function Apply(f: seq<Fault>, e: Event): (r: seq<Fault>)
    ensures |r| == |f|
  {
    match e
    case Failed(token, stream, error, sequence) => AddFault(f, token, stream, error, sequence)
    case Taken(token, stream) => TakeFault(f, token, stream)
    case Dropped(token) => DropClient(f, token)
  }

  function Play(f: seq<Fault>, events: seq<Event>): (r: seq<Fault>)
    ensures |r| == |f|
  {
    if events == [] then f else Apply(Play(f, events[..|events| - 1]), events[|events| - 1])
  }

  lemma {:induction false} PlayAppend(f: seq<Fault>, a: seq<Event>, b: seq<Event>)
    ensures Play(f, a + b) == Play(Play(f, a), b)
  {
    if b == [] {
      assert a + b == a;
    } else {
      var b' := b[..|b| - 1];
      assert (a + b)[..|a + b| - 1] == a + b';
      PlayAppend(f, a, b');
    }
  }

  function EmptyTable(): seq<Fault> {
    seq(FAULTS, _ => Fault(0, 0, 0, 0))
  }

  /** The table after the first n events. */
  function After(events: seq<Event>, n: nat): seq<Fault>
    requires n <= |events|
  {
    Play(EmptyTable(), events[..n])
  }

  lemma AfterNext(events: seq<Event>, n: nat)
    requires n < |events|
    ensures After(events, n + 1) == Apply(After(events, n), events[n])
  {
    assert events[..n + 1][..n] == events[..n];
  }

  lemma {:induction false} AfterDistinct(events: seq<Event>, n: nat)
    requires n <= |events|
    ensures Distinct(After(events, n))
  {
    if n > 0 {
      AfterDistinct(events, n - 1);
      AfterNext(events, n - 1);
      StepKeeps(After(events, n - 1), events[n - 1], Key(1, 1), Failure(0, 0));
    }
  }

  /** A record appears only by its own failure, on a key not held, in a table with room. */
  lemma StepKeeps(f: seq<Fault>, e: Event, k: Key, v: Failure)
    requires Distinct(f)
    ensures Distinct(Apply(f, e))
    ensures Held(Apply(f, e), k, v) && !Held(f, k, v)
            ==> e == Failed(k.Token, k.Stream, v.Error, v.Sequence) && !HeldKey(f, k) && !Full(f)
  {
    match e
    case Failed(token, stream, error, sequence) => AddHoldsFirst(f, token, stream, error, sequence, k, v);
    case Taken(token, stream) => TakeReportsOnce(f, token, stream, k, v);
    case Dropped(token) => DropForgetsClient(f, token, k, v);
  }

  lemma FailureIsHeld(f: seq<Fault>, k: Key, error: u32, sequence: u32)
    requires Distinct(f) && k.Token != 0 && k.Stream != 0 && !Full(f)
    ensures HeldKey(AddFault(f, k.Token, k.Stream, error, sequence), k)
  {
    var f' := AddFault(f, k.Token, k.Stream, error, sequence);
    var free, at := FirstMatch(f, 0, 0, 0), FirstMatch(f, k.Token, k.Stream, 0);
    if at == |f| {
      assert f'[free].Token == k.Token && f'[free].Stream == k.Stream;
    }
  }

  /** Event i recorded (k, v), and it has been held ever since. */
  ghost predicate RecordedAt(events: seq<Event>, i: nat, k: Key, v: Failure) {
    && i < |events| && events[i] == Failed(k.Token, k.Stream, v.Error, v.Sequence)
    && !HeldKey(After(events, i), k) && !Full(After(events, i))
    && forall j :: i < j <= |events| ==> Held(After(events, j), k, v)
  }

  /** Between events j and i the record of k was taken or dropped. */
  ghost predicate RemovedBetween(events: seq<Event>, k: Key, j: nat, i: nat)
    requires i <= |events|
  {
    exists m :: j <= m < i && HeldKey(After(events, m), k) && !HeldKey(After(events, m + 1), k)
  }

  lemma RecordedStays(events: seq<Event>, e: Event, i: nat, k: Key, v: Failure)
    requires RecordedAt(events, i, k, v) && Held(After(events + [e], |events| + 1), k, v)
    ensures RecordedAt(events + [e], i, k, v)
  {
    assert forall j :: 0 <= j <= |events| ==> (events + [e])[..j] == events[..j];
    forall j | i < j <= |events| + 1
      ensures Held(After(events + [e], j), k, v)
    {
      if j <= |events| {
        assert After(events + [e], j) == After(events, j);
      }
    }
    assert After(events + [e], i) == After(events, i);
  }

  lemma {:induction false} RecordIsOfSomeEvent(events: seq<Event>, k: Key, v: Failure) returns (i: nat)
    requires Held(After(events, |events|), k, v)
    ensures RecordedAt(events, i, k, v)
  {
    hide Apply, Held, HeldKey, Full, RecordedAt;
    var n := |events|;
    NothingHeld(events, k, v);
    if n == 0 {
      assert false;
    }
    var before, last := events[..n - 1], events[n - 1];
    assert events == before + [last] && events[..n - 1] == before[..n - 1];
    AfterDistinct(events, n - 1);
    AfterNext(events, n - 1);
    StepKeeps(After(events, n - 1), last, k, v);
    if Held(After(events, n - 1), k, v) {
      i := RecordIsOfSomeEvent(before, k, v);
      RecordedStays(before, last, i, k, v);
    } else {
      i := n - 1;
      RecordedNow(events, i, k, v);
    }
  }

  lemma NothingHeld(events: seq<Event>, k: Key, v: Failure)
    ensures !Held(After(events, 0), k, v)
  {
    assert events[..0] == [];
  }

  lemma RecordedNow(events: seq<Event>, i: nat, k: Key, v: Failure)
    requires i + 1 == |events| && Held(After(events, i + 1), k, v)
    requires events[i] == Failed(k.Token, k.Stream, v.Error, v.Sequence)
    requires !HeldKey(After(events, i), k) && !Full(After(events, i))
    ensures RecordedAt(events, i, k, v)
  {
  }

  lemma {:induction false} SomeRemoval(events: seq<Event>, k: Key, j: nat, i: nat)
    requires j <= i <= |events| && HeldKey(After(events, j), k) && !HeldKey(After(events, i), k)
    ensures RemovedBetween(events, k, j, i)
    decreases i - j
  {
    if HeldKey(After(events, j + 1), k) {
      SomeRemoval(events, k, j + 1, i);
    }
  }

  /**
   * In every run of failures, takes and drops, a held record is the earliest
   * failure of its stream since that stream was last taken or dropped, except
   * for failures that met a full table.
   */
  lemma HeldRecordIsEarliest(events: seq<Event>, k: Key, v: Failure) returns (i: nat)
    requires Held(After(events, |events|), k, v)
    ensures RecordedAt(events, i, k, v)
    ensures forall j :: 0 <= j < i && events[j].Failed? && events[j].token == k.Token && events[j].stream == k.Stream
              ==> Full(After(events, j)) || RemovedBetween(events, k, j + 1, i)
  {
    i := RecordIsOfSomeEvent(events, k, v);
    AfterDistinct(events, |events|);
    HeldHasStream(After(events, |events|), k, v);
    forall j | 0 <= j < i && events[j].Failed? && events[j].token == k.Token && events[j].stream == k.Stream
      ensures Full(After(events, j)) || RemovedBetween(events, k, j + 1, i)
    {
      if !Full(After(events, j)) {
        AfterDistinct(events, j);
        AfterNext(events, j);
        FailureIsHeld(After(events, j), k, events[j].error, events[j].sequence);
        SomeRemoval(events, k, j + 1, i);
      }
    }
  }

  lemma HeldHasStream(f: seq<Fault>, k: Key, v: Failure)
    requires Distinct(f) && Held(f, k, v)
    ensures k.Token != 0 && k.Stream != 0
  {
    var i :| 0 <= i < |f| && f[i] == Fault(k.Token, k.Stream, v.Error, v.Sequence);
  }
}
