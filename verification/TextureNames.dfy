/**
 * The bounded texture namespace of guest/opengl/names.h: open addressing with
 * tombstones. A nonzero payload (the target) on name zero is a tombstone; a
 * stored name has target zero until its first bind.
 */
module TextureNames {
  import opened Words
  import opened ProbeTable

  const TOMBSTONE: Entry<u32> := Entry(0, 1)

  datatype Option<T> = None | Some(value: T)

  ghost predicate Empty(e: Entry<u32>) {
    e.Name == 0 && e.Payload == 0
  }

  /** Searches for stored names meet tombstones and other names, never an empty slot. */
  ghost predicate Linked(s: seq<Entry<u32>>) {
    && |s| > 0 && Unique(s)
    && forall i, j :: 0 <= i < |s| && 0 <= j < |s| && s[i].Name != 0 && OnPath(s, i, j) ==> !Empty(s[j])
  }

  /** The slots probed before `at` hold neither `name` nor an empty slot. */
  ghost predicate Searched(s: seq<Entry<u32>>, name: u32, at: nat)
    requires |s| > 0
  {
    var home := NameSlot(|s|, name);
    forall j :: 0 <= j < |s| && Steps(|s|, home, j) < at ==> s[j].Name != name && !Empty(s[j])
  }

  /** `free` is the first slot without a name among those probed before `at`. */
  ghost predicate FirstFree(s: seq<Entry<u32>>, name: u32, at: nat, free: Option<nat>)
    requires |s| > 0
  {
    var home := NameSlot(|s|, name);
    && (free.Some? ==> free.value < |s| && s[free.value].Name == 0 && Steps(|s|, home, free.value) < at)
    && forall j :: 0 <= j < |s| && Steps(|s|, home, j) < (if free.Some? then Steps(|s|, home, free.value) else at)
         ==> s[j].Name != 0
  }

  /** One probe of the search that finds another name or a tombstone. */
  lemma ProbeOne(s: seq<Entry<u32>>, name: u32, i: nat, slot: nat, free: Option<nat>)
    requires i < |s| && slot < |s| && Steps(|s|, NameSlot(|s|, name), slot) == i
    requires Searched(s, name, i) && FirstFree(s, name, i, free)
    requires s[slot].Name != name && !Empty(s[slot])
    ensures Searched(s, name, i + 1)
    ensures FirstFree(s, name, i + 1, if free.None? && s[slot].Name == 0 then Some(slot) else free)
    ensures i + 1 < |s| ==> Steps(|s|, NameSlot(|s|, name), NextSlot(|s|, slot)) == i + 1
  {
  }

  /** What FindName promises: the entry of the name, else where a new one may be stored. */
  ghost predicate Found(s: seq<Entry<u32>>, name: u32, at: nat)
    requires at < |s|
  {
    if name in Contents(s) then s[at] == Entry(name, Contents(s)[name])
    else s[at].Name == 0 && Searched(s, name, Steps(|s|, NameSlot(|s|, name), at))
  }

  lemma SlotOfName(s: seq<Entry<u32>>, i: nat)
    requires Unique(s) && i < |s| && s[i].Name != 0
    ensures s[i].Name in Contents(s) && Contents(s)[s[i].Name] == s[i].Payload
  {
  }

  /** A chain that reaches an empty slot, or has been round the table, holds no such name. */
  lemma ChainEnds(s: seq<Entry<u32>>, name: u32, at: nat, slot: nat)
    requires Linked(s) && name != 0 && Searched(s, name, at)
    requires at >= |s| || (slot < |s| && Empty(s[slot]) && Steps(|s|, NameSlot(|s|, name), slot) == at)
    ensures name !in Contents(s)
  {
    if name in Contents(s) {
      var i := SlotOf(s, name);
      var crossed := at < |s| && OnPath(s, i, slot);
    }
  }

  lemma FreeIsOnChain(s: seq<Entry<u32>>, name: u32, at: nat, slot: nat, free: nat)
    requires |s| > 0 && free < |s| && s[free].Name == 0 && Searched(s, name, at) && name !in Contents(s)
    requires Steps(|s|, NameSlot(|s|, name), free) <= at
    ensures Found(s, name, free)
  {
  }

  /** Storing a name in its first free slot, tombstone or empty, breaks no chain ... */
  lemma ReuseKeepsLinks(s: seq<Entry<u32>>, name: u32, at: nat, target: u32)
    requires Linked(s) && name != 0 && at < |s| && Found(s, name, at)
    ensures Linked(s[at := Entry(name, target)])
  {
    var s' := s[at := Entry(name, target)];
    forall i | 0 <= i < |s| && s[i].Name == name ensures name in Contents(s) && i == at {
      SlotOfName(s, i);
    }
    forall i, j | 0 <= i < |s| && 0 <= j < |s| && s'[i].Name != 0 && OnPath(s', i, j) ensures !Empty(s'[j]) {
      if s[i].Name != 0 {
        assert OnPath(s, i, j);
      }
    }
  }

  /** ... and hides no later entry of the chain: every other name keeps its target. */
  lemma ReuseUpdatesMap(s: seq<Entry<u32>>, name: u32, at: nat, target: u32)
    requires Linked(s) && name != 0 && at < |s| && Found(s, name, at)
    ensures Contents(s[at := Entry(name, target)]) == Contents(s)[name := target]
  {
    ReuseKeepsLinks(s, name, at, target);
    var s' := s[at := Entry(name, target)];
    var m := Contents(s)[name := target];
    forall k | k in m
      ensures exists i :: 0 <= i < |s'| && s'[i].Name != 0 && s'[i].Name == k
    {
      if k == name {
        assert s'[at].Name == k;
      } else {
        assert s'[SlotOf(s, k)].Name == k;
      }
    }
    forall i | 0 <= i < |s'| && s'[i].Name != 0 ensures s'[i].Name in m && m[s'[i].Name] == s'[i].Payload {
      if i != at {
        SlotOfName(s, i);
      }
    }
    ContentsOf(s', m);
  }

  /** A tombstone removes its name and keeps every chain through its slot. */
  lemma TombstoneForgets(s: seq<Entry<u32>>, at: nat)
    requires Linked(s) && at < |s| && s[at].Name != 0
    ensures Linked(s[at := TOMBSTONE])
    ensures Contents(s[at := TOMBSTONE]) == Contents(s) - {s[at].Name}
  {
    var s' := s[at := TOMBSTONE];
    forall i, j | 0 <= i < |s| && 0 <= j < |s| && s'[i].Name != 0 && OnPath(s', i, j) ensures !Empty(s'[j]) {
      assert OnPath(s, i, j);
    }
    var m := Contents(s) - {s[at].Name};
    forall k | k in m
      ensures exists i :: 0 <= i < |s'| && s'[i].Name != 0 && s'[i].Name == k
    {
      assert s'[SlotOf(s, k)].Name == k;
    }
    forall i | 0 <= i < |s'| && s'[i].Name != 0 ensures s'[i].Name in m && m[s'[i].Name] == s'[i].Payload {
      SlotOfName(s, i);
    }
    ContentsOf(s', m);
  }

  datatype Bound = Recorded | NotRecorded | InvalidOperation | OutOfMemory

  /** How glGenTextures ends: a query that fails leaves the names found before it. */
  datatype Outcome = Complete | Interrupted | NoRoom

  /** The candidates the host does not hold, in order. */
  function NotHeld(passed: seq<u32>, held: set<u32>): seq<u32> {
    if passed == [] then [] else
      NotHeld(passed[..|passed| - 1], held) + if passed[|passed| - 1] in held then [] else [passed[|passed| - 1]]
  }

  function Queried(native: bool, host: set<u32>): set<u32> {
    if native then host else {}
  }

  predicate AllAnswered(answered: nat -> bool, n: nat) {
    forall k: nat :: k < n ==> answered(k)
  }

  /** A candidate that glGenTextures considers: not zero, and without a name here. */
  predicate Offered(m: map<u32, u32>, candidate: u32) {
    candidate != 0 && candidate !in m
  }

  /** Those considered among the `n` candidates that the wrapping counter gives from `start`, in order. */
  function Unnamed(m: map<u32, u32>, start: u32, n: nat): seq<u32> {
    if n == 0 then [] else
      Unnamed(m, start, n - 1) + if Offered(m, Add32(start, n - 1)) then [Add32(start, n - 1)] else []
  }

  /** The names those candidates give while every query is answered. */
  function Storable(m: map<u32, u32>, native: bool, host: set<u32>, start: u32, n: nat): seq<u32> {
    NotHeld(Unnamed(m, start, n), Queried(native, host))
  }

  /**
   * What glGenTextures reserves once it has tried `n` candidates from the
   * counter's value `start`. With native lists the host is asked about each
   * candidate without a name here, and `answered` says which of those queries
   * succeed.
   */
  ghost predicate Reserves(m: map<u32, u32>, native: bool, limit: nat, start: u32, count: u32, host: set<u32>, answered: nat -> bool,
                           names: seq<u32>, outcome: Outcome, n: nat, m2: map<u32, u32>) {
    && (outcome.NoRoom? <==> count > limit - |m|)
    && m2 == Reserved(m, names, 0) && Fresh(m.Keys + Queried(native, host), names)
    && match outcome
       case NoRoom => n == 0 && names == []
       case Complete =>
         && names == Storable(m, native, host, start, n) && |names| == count
         && (n > 0 ==> |Storable(m, native, host, start, n - 1)| < count)
         && (native ==> AllAnswered(answered, |Unnamed(m, start, n)|))
       case Interrupted =>
         && native && n > 0 && Offered(m, Add32(start, n - 1))
         && names == Storable(m, native, host, start, n - 1) && |names| < count
         && AllAnswered(answered, |Unnamed(m, start, n - 1)|) && !answered(|Unnamed(m, start, n - 1)|)
  }

  /** The search from `start` ended after `tried` candidates: at one to store, or at a query that failed. */
  ghost predicate Offers(m: map<u32, u32>, native: bool, host: set<u32>, answered: nat -> bool, start: u32, first: nat,
                         candidate: u32, asked: nat, found: bool, tried: nat) {
    && tried > 0 && candidate == Add32(start, tried - 1) && Offered(m, candidate)
    && AllUsed(start, tried - 1, m.Keys + {0} + Queried(native, host))
    && (native ==> first < asked == first + |Unnamed(m, start, tried)| && forall k :: first <= k < asked - 1 ==> answered(k))
    && found == (native ==> answered(asked - 1)) && (found ==> candidate !in Queried(native, host))
  }

  /** What the loop has stored after `n` candidates. */
  ghost predicate Trying(before: map<u32, u32>, now: map<u32, u32>, native: bool, start: u32, count: u32, host: set<u32>,
                         answered: nat -> bool, names: seq<u32>, n: nat, asked: nat) {
    && now == Reserved(before, names, 0) && Fresh(before.Keys + Queried(native, host), names)
    && names == Storable(before, native, host, start, n) && AllUsed(start, n, now.Keys + {0} + Queried(native, host))
    && (n > 0 ==> |Storable(before, native, host, start, n - 1)| < count)
    && (native ==> asked == |Unnamed(before, start, n)| && AllAnswered(answered, asked))
  }

  /** The k-th candidate is asked about while names are still wanted. */
  predicate Asks(m: map<u32, u32>, start: u32, count: u32, host: set<u32>, k: nat) {
    Offered(m, Add32(start, k)) && |Storable(m, true, host, start, k)| < count
  }

  /** Every such query is answered. */
  ghost predicate AnswersAll(m: map<u32, u32>, start: u32, count: u32, host: set<u32>, answered: nat -> bool) {
    forall k: nat :: Asks(m, start, count, host, k) ==> answered(|Unnamed(m, start, k)|)
  }

  /** All names are reserved exactly when there is room and, with native lists, every query that would be needed is answered. */
  lemma CompleteIff(m: map<u32, u32>, native: bool, limit: nat, start: u32, count: u32, host: set<u32>, answered: nat -> bool,
                    names: seq<u32>, outcome: Outcome, n: nat, m2: map<u32, u32>)
    requires Reserves(m, native, limit, start, count, host, answered, names, outcome, n, m2)
    ensures outcome.Complete? <==> count <= limit - |m| && (native ==> AnswersAll(m, start, count, host, answered))
    ensures m2.Keys == m.Keys + Listed(names)
  {
    hide Fresh, NotHeld, Unnamed;
    if outcome.Complete? && native {
      forall k: nat | Asks(m, start, count, host, k)
        ensures answered(|Unnamed(m, start, k)|)
      {
        if n <= k {
          StorableGrows(m, native, host, start, n, k);
        }
        OneMoreTried(m, start, k);
        StorableGrows(m, native, host, start, k + 1, n);
      }
    }
    if outcome.Interrupted? {
      assert Asks(m, start, count, host, n - 1);
    }
  }

  /** Before the call its whole result is settled: the names, how it ends, the counter and the map. */
  lemma OneResult(m: map<u32, u32>, native: bool, limit: nat, start: u32, count: u32, host: set<u32>, answered: nat -> bool,
                  names: seq<u32>, outcome: Outcome, n: nat, m2: map<u32, u32>,
                  names': seq<u32>, outcome': Outcome, n': nat, m2': map<u32, u32>)
    requires Reserves(m, native, limit, start, count, host, answered, names, outcome, n, m2)
    requires Reserves(m, native, limit, start, count, host, answered, names', outcome', n', m2')
    ensures names' == names && outcome' == outcome && n' == n && m2' == m2
  {
    hide Fresh, NotHeld, Unnamed, Reserved, Storable, AnswersAll, AllAnswered;
    CompleteIff(m, native, limit, start, count, host, answered, names, outcome, n, m2);
    CompleteIff(m, native, limit, start, count, host, answered, names', outcome', n', m2');
    if n < n' {
      EarlierEnd(m, native, limit, start, count, host, answered, names, outcome, n, m2, names', outcome', n', m2');
    } else if n' < n {
      EarlierEnd(m, native, limit, start, count, host, answered, names', outcome', n', m2', names, outcome, n, m2);
    }
  }

  /** A call does not go on where another would have ended in the same way. */
  lemma EarlierEnd(m: map<u32, u32>, native: bool, limit: nat, start: u32, count: u32, host: set<u32>, answered: nat -> bool,
                   names: seq<u32>, outcome: Outcome, n: nat, m2: map<u32, u32>,
                   names': seq<u32>, outcome': Outcome, n': nat, m2': map<u32, u32>)
    requires Reserves(m, native, limit, start, count, host, answered, names, outcome, n, m2)
    requires Reserves(m, native, limit, start, count, host, answered, names', outcome', n', m2')
    requires outcome' == outcome
    ensures n' <= n
  {
    hide Fresh, NotHeld, Unnamed, Reserved, Storable, Offered, Queried, Add32, AllAnswered;
    if n < n' {
      if outcome.Complete? {
        StorableGrows(m, native, host, start, n, n' - 1);
      } else {
        FirstFailureEnds(m, start, answered, n, n');
      }
    }
  }

  lemma FirstFailureEnds(m: map<u32, u32>, start: u32, answered: nat -> bool, n: nat, n': nat)
    requires 0 < n < n' && Offered(m, Add32(start, n - 1)) && !answered(|Unnamed(m, start, n - 1)|)
    ensures !AllAnswered(answered, |Unnamed(m, start, n' - 1)|)
  {
    hide Unnamed;
    OneMoreTried(m, start, n - 1);
    StorableGrows(m, false, {}, start, n, n' - 1);
    assert |Unnamed(m, start, n - 1)| < |Unnamed(m, start, n' - 1)|;
  }

  lemma OneMoreTried(m: map<u32, u32>, start: u32, k: nat)
    requires Offered(m, Add32(start, k))
    ensures |Unnamed(m, start, k + 1)| == |Unnamed(m, start, k)| + 1
  {
  }

  lemma {:induction false} StorableGrows(m: map<u32, u32>, native: bool, host: set<u32>, start: u32, k: nat, n: nat)
    ensures k <= n ==> Unnamed(m, start, k) <= Unnamed(m, start, n)
    ensures k <= n ==> |Storable(m, native, host, start, k)| <= |Storable(m, native, host, start, n)|
  {
    hide Storable, Add32, Offered;
    if k < n {
      StorableGrows(m, native, host, start, k, n - 1);
      StorableStep(m, native, host, start, n - 1);
    }
  }

  lemma StorableStep(m: map<u32, u32>, native: bool, host: set<u32>, start: u32, n: nat)
    ensures |Storable(m, native, host, start, n)| <= |Storable(m, native, host, start, n + 1)|
  {
    hide NotHeld;
    if Offered(m, Add32(start, n)) {
      NotHeldOneMore(Unnamed(m, start, n), Queried(native, host), Add32(start, n));
    } else {
      assert Unnamed(m, start, n + 1) == Unnamed(m, start, n);
    }
  }

  /** Two names asked for, the first query answered, the second failing: one name stays, the first candidate without one. */
  lemma OneOfTwoStays(m: map<u32, u32>, limit: nat, start: u32, answered: nat -> bool,
                      names: seq<u32>, outcome: Outcome, n: nat, m2: map<u32, u32>)
    requires Reserves(m, true, limit, start, 2, {}, answered, names, outcome, n, m2)
    requires 2 <= limit - |m| && answered(0) && !answered(1)
    ensures outcome.Interrupted? && names == Unnamed(m, start, n - 1) && |names| == 1 && m2 == m[names[0] := 0]
  {
    hide Fresh, Unnamed, Offered, NotHeld, Reserved, Add32;
    NoneHeld(Unnamed(m, start, n));
    if n > 0 {
      NoneHeld(Unnamed(m, start, n - 1));
    }
    if |names| == 1 {
      OneReserved(m, names);
    }
  }

  lemma OneReserved(m: map<u32, u32>, names: seq<u32>)
    requires |names| == 1
    ensures Reserved(m, names, 0) == m[names[0] := 0]
  {
  }

  lemma {:induction false} NoneHeld(passed: seq<u32>)
    ensures NotHeld(passed, {}) == passed
  {
    if passed != [] {
      NoneHeld(passed[..|passed| - 1]);
    }
  }

  lemma {:induction false} HeldAddNothing(passed: seq<u32>, more: seq<u32>, held: set<u32>)
    requires forall k :: 0 <= k < |more| ==> more[k] in held
    ensures NotHeld(passed + more, held) == NotHeld(passed, held)
  {
    if more == [] {
      assert passed + more == passed;
    } else {
      assert (passed + more)[..|passed + more| - 1] == passed + more[..|more| - 1];
      HeldAddNothing(passed, more[..|more| - 1], held);
    }
  }

  lemma NotHeldOneMore(passed: seq<u32>, held: set<u32>, name: u32)
    ensures NotHeld(passed + [name], held) == NotHeld(passed, held) + if name in held then [] else [name]
  {
    assert (passed + [name])[..|passed|] == passed;
  }

  class TextureTable {
    const slots: nat
    const Entries: array<Entry<u32>>
    var Count: u32
    var Next: u32
    /** Display lists have been used, in which the host may have created names. */
    var NativeLists: bool

    /** At most DG_GL_MAX_TEXTURES names, half the slots. */
    ghost predicate Valid()
      reads this, Entries
    {
      && PowerOfTwo(slots) && 2 <= slots <= HALF && Entries.Length == slots && Linked(Entries[..])
      && Count == |Contents(Entries[..])| && 2 * Count <= slots
    }

    ghost function Map(): map<u32, u32>
      reads this, Entries
    {
      Contents(Entries[..])
    }

    constructor (slots: nat)
      requires PowerOfTwo(slots) && 2 <= slots <= HALF
      ensures Valid() && Map() == map[] && fresh(Entries) && this.slots == slots && Next == 1 && !NativeLists
    {
      this.slots := slots;
      Entries := new Entry<u32>[slots](_ => Entry(0, 0));
      Count, Next, NativeLists := 0, 1, false;
      new;
      ContentsOf(Entries[..], map[]);
    }

    method FindName(name: u32) returns (found: Option<nat>)
      requires Valid() && name != 0
      ensures found.Some? && found.value < slots && Found(Entries[..], name, found.value)
    {
      hide Contents, Linked, PowerOfTwo, Searched;
      ghost var s := Entries[..];
      ghost var home := NameSlot(slots, name);
      SearchStarts(s, name);
      var slot: nat, empty: Option<nat> := NameSlot(slots, name), None;
      for i := 0 to slots
        invariant slot < slots && (i < slots ==> Steps(slots, home, slot) == i)
        invariant Searched(s, name, i) && FirstFree(s, name, i, empty)
      {
        ghost var before := empty;
        if Entries[slot].Name == name {
          SlotOfName(s, slot);
          return Some(slot);
        }
        if Entries[slot].Name == 0 {
          if empty.None? {
            empty := Some(slot);
          }
          if Entries[slot].Payload == 0 {
            ChainEnds(s, name, i, slot);
            FreeIsOnChain(s, name, i, slot, empty.value);
            return empty;
          }
        }
        ProbeOne(s, name, i, slot, before);
        MaskedNext(slots, slot);
        slot := Add32(slot, 1) % slots;
      }
      ChainEnds(s, name, slots, slot);
      ghost var unused := SomeSlotIsEmpty(s);
      FreeIsOnChain(s, name, slots, slot, empty.value);
      return empty;
    }

    method Put(at: nat, name: u32, target: u32)
      requires Valid() && name != 0 && at < slots && Found(Entries[..], name, at)
      requires name in Map() || 2 * (Count + 1) <= slots
      modifies this`Count, Entries
      ensures Valid() && Map() == old(Map())[name := target]
      ensures Count == if name in old(Map()) then old(Count) else old(Count) + 1
    {
      hide Contents, Linked, PowerOfTwo, Searched;
      ghost var before := Entries[..];
      ReuseKeepsLinks(before, name, at, target);
      ReuseUpdatesMap(before, name, at, target);
      PutSize(Contents(before), name, target);
      if Entries[at].Name == 0 {
        Count := Count + 1;
      }
      Entries[at] := Entry(name, target);
      assert Entries[..] == before[at := Entry(name, target)];
    }

    /** JglListMode. */
    method UseLists()
      requires Valid()
      modifies this`NativeLists
      ensures Valid() && Map() == old(Map()) && NativeLists
    {
      NativeLists := true;
    }

    /**
     * The next candidate that glGenTextures may store: it passes over zero, the
     * names of this table and, with native lists, the host's, one query each.
     */
    method NextUnused(host: set<u32>, answered: nat -> bool, first: nat)
      returns (candidate: u32, at: nat, asked: nat, found: bool, ghost tried: nat)
      requires Valid() && slots + |host| < WORD
      modifies this`Next
      ensures Valid() && Map() == old(Map())
      ensures Next == Add32(old(Next), tried) && Offered(Map(), candidate) && at < slots && Found(Entries[..], candidate, at)
      ensures Offers(Map(), NativeLists, host, answered, old(Next), first, candidate, asked, found, tried)
    {
      hide Linked, Contents, Searched, AllUsed, Add32, PowerOfTwo;
      ghost var used, start := Map().Keys + {0} + Queried(NativeLists, host), Next;
      NoneUsed(start, used);
      UsedSize(Map(), Queried(NativeLists, host));
      asked, tried := first, 0;
      while true
        invariant Valid() && Map() == old(Map())
        invariant tried <= |used| && Next == Add32(start, tried) && AllUsed(start, tried, used)
        invariant NativeLists ==> asked == first + |Unnamed(Map(), start, tried)| && forall k :: first <= k < asked ==> answered(k)
        decreases |used| - tried
      {
        candidate := Next;
        Next := Add32(Next, 1);
        NextTried(start, tried);
        if candidate != 0 {
          var entry := FindName(candidate);
          at := entry.value;
          FoundName(Entries[..], candidate, at);
          if Entries[at].Name == 0 {
            if !NativeLists {
              return candidate, at, asked, true, tried + 1;
            }
            asked := asked + 1;
            if !answered(asked - 1) {
              return candidate, at, asked, false, tried + 1;
            }
            if candidate !in host {
              return candidate, at, asked, true, tried + 1;
            }
          }
        }
        OneMoreUsed(start, tried, used);
        tried := tried + 1;
      }
    }

    /** glGenTextures of `count` names into an array that can hold them. */
    method GenTextures(count: u32, host: set<u32>, answered: nat -> bool)
      returns (names: seq<u32>, outcome: Outcome, ghost n: nat)
      requires Valid() && slots + |host| < WORD
      modifies this`Count, this`Next, Entries
      ensures Valid()
      ensures Reserves(old(Map()), NativeLists, slots / 2, old(Next), count, host, answered, names, outcome, n, Map())
      ensures Next == Add32(old(Next), n)
    {
      hide Linked, Contents, Searched, Found, Trying, Offers, Reserves;
      names, n := [], 0;
      ghost var before, start := Map(), Next;
      if count > slots / 2 - Count {
        NoneReserved(before, NativeLists, slots / 2, start, count, host, answered);
        return names, NoRoom, n;
      }
      var asked := 0;
      TryingStarts(before, NativeLists, start, count, host, answered);
      while |names| < count
        invariant Valid() && Next == Add32(start, n) && |names| <= count && Count == |before| + |names|
        invariant Trying(before, Map(), NativeLists, start, count, host, answered, names, n, asked)
      {
        UsedSize(Map(), Queried(NativeLists, host));
        ghost var now, asked0, tried := Map(), asked, 0;
        var candidate, at, found;
        candidate, at, asked, found, tried := NextUnused(host, answered, asked);
        SumTried(start, n, tried);
        if !found {
          TryFails(before, now, NativeLists, slots / 2, start, count, host, answered, names, n, asked0, candidate, asked, tried);
          return names, Interrupted, n + tried;
        }
        TryStores(before, now, NativeLists, start, count, host, answered, names, n, asked0, candidate, asked, tried);
        n := n + tried;
        Put(at, candidate, 0);
        names := names + [candidate];
      }
      TryingEnds(before, Map(), NativeLists, slots / 2, start, count, host, answered, names, n, asked);
      return names, Complete, n;
    }

    /**
     * glBindTexture; `room` says whether its record fits. Name 0, and any name
     * once native lists are used, is the host's to judge.
     */
    method BindTexture(target: u32, texture: u32, room: bool) returns (outcome: Bound)
      requires Valid() && target != 0
      modifies this`Count, Entries
      ensures Valid()
      ensures BindAnswers(old(Map()), NativeLists, slots / 2, target, texture, room, outcome, Map())
    {
      hide Linked, Contents, Searched;
      if texture == 0 || NativeLists {
        return if room then Bound.Recorded else NotRecorded;
      }
      var entry := FindName(texture);
      var at := entry.value;
      FoundName(Entries[..], texture, at);
      if Entries[at].Name != 0 && Entries[at].Payload != 0 && Entries[at].Payload != target {
        return InvalidOperation;
      }
      if Entries[at].Name == 0 && Count == slots / 2 {
        return OutOfMemory;
      }
      if !room {
        return NotRecorded;
      }
      Put(at, texture, target);
      return Bound.Recorded;
    }

    /** glIsTexture: from the table, or the host's answer once native lists are used; no answer is FALSE. */
    method IsTexture(texture: u32, answer: Option<bool>) returns (result: bool)
      requires Valid()
      ensures result <==> texture != 0 && if NativeLists then answer == Some(true) else texture in Map() && Map()[texture] != 0
    {
      hide Linked, Searched, PowerOfTwo;
      if texture == 0 {
        return false;
      }
      if NativeLists {
        return answer.Some? && answer.value;
      }
      var entry := FindName(texture);
      FoundName(Entries[..], texture, entry.value);
      return entry.Some? && Entries[entry.value].Name != 0 && Entries[entry.value].Payload != 0;
    }

    /** A stored name becomes a tombstone. */
    method Forget(texture: u32)
      requires Valid()
      modifies this`Count, Entries
      ensures Valid() && Map() == old(Map()) - {texture}
    {
      hide Linked, Searched, Contents, PowerOfTwo;
      if texture == 0 {
        ZeroIsNoName(Entries[..]);
        return;
      }
      var entry := FindName(texture);
      FoundName(Entries[..], texture, entry.value);
      if entry.Some? && Entries[entry.value].Name != 0 {
        ghost var before := Entries[..];
        TombstoneForgets(before, entry.value);
        RemoveSize(Map(), texture);
        Entries[entry.value] := TOMBSTONE;
        assert Entries[..] == before[entry.value := TOMBSTONE];
        Count := Count - 1;
      }
    }

    /** JglForgetTextures. */
    method ForgetTextures(textures: seq<u32>)
      requires Valid()
      modifies this`Count, Entries
      ensures Valid() && Map() == old(Map()) - Listed(textures)
    {
      hide Linked, Contents, PowerOfTwo, Listed;
      ListedNames(textures, 0);
      for i := 0 to |textures|
        invariant Valid() && Map() == old(Map()) - Listed(textures[..i])
      {
        ListedNames(textures, i);
        ForgetOneMore(old(Map()), Listed(textures[..i]), textures[i]);
        Forget(textures[i]);
      }
      assert textures[..|textures|] == textures;
    }
  }

  /** The error, or the record and the target it sets; the map of names holds while no native list is used. */
  ghost predicate BindAnswers(m: map<u32, u32>, native: bool, limit: nat, target: u32, texture: u32, room: bool, outcome: Bound, m2: map<u32, u32>) {
    var judged := texture != 0 && !native;
    && outcome == (if judged && texture in m && m[texture] !in {0, target} then InvalidOperation
                   else if judged && texture !in m && |m| == limit then OutOfMemory
                   else if room then Bound.Recorded else NotRecorded)
    && m2 == if outcome.Recorded? && judged then m[texture := target] else m
  }

  ghost function Listed(names: seq<u32>): set<u32> {
    set name | name in names
  }

  lemma ForgetOneMore(m: map<u32, u32>, names: set<u32>, name: u32)
    ensures m - names - {name} == m - (names + {name})
  {
  }

  lemma ListedNames(names: seq<u32>, i: nat)
    requires i <= |names|
    ensures Listed(names[..0]) == {}
    ensures i < |names| ==> Listed(names[..i + 1]) == Listed(names[..i]) + {names[i]}
  {
    if i < |names| {
      assert names[..i + 1] == names[..i] + [names[i]];
    }
  }

  lemma SearchStarts(s: seq<Entry<u32>>, name: u32)
    requires Linked(s)
    ensures |s| > 0 && Unique(s) && Searched(s, name, 0)
  {
  }

  lemma FoundName(s: seq<Entry<u32>>, name: u32, at: nat)
    requires at < |s| && name != 0 && Found(s, name, at)
    ensures s[at].Name == name <==> name in Contents(s)
    ensures name in Contents(s) ==> s[at] == Entry(name, Contents(s)[name])
    ensures name !in Contents(s) ==> s[at].Name == 0
  {
  }

  lemma ZeroIsNoName(s: seq<Entry<u32>>)
    ensures 0 !in Contents(s)
  {
  }

  lemma UsedSize(m: map<u32, u32>, host: set<u32>)
    ensures |m.Keys + {0} + host| <= |m| + 1 + |host|
  {
  }

  lemma RemoveSize(m: map<u32, u32>, name: u32)
    requires name in m
    ensures |m - {name}| == |m| - 1
  {
    assert (m - {name}).Keys == m.Keys - {name};
  }

  lemma NothingFresh(used: set<u32>)
    ensures Fresh(used, [])
  {
  }

  lemma OneMoreName(m: map<u32, u32>, taken: set<u32>, names: seq<u32>, name: u32)
    requires Fresh(m.Keys + taken, names) && name != 0 && name !in Reserved(m, names, 0) && name !in taken
    ensures Fresh(m.Keys + taken, names + [name])
    ensures Reserved(m, names + [name], 0) == Reserved(m, names, 0)[name := 0]
  {
    FreshOneMore(m, names, name, 0);
  }

  lemma NextTried(start: u32, tried: nat)
    ensures Add32(Add32(start, tried), 1) == Add32(start, tried + 1)
  {
  }

  /** Fewer than 2^32 candidates are all different. */
  lemma TriedOnce(start: u32, i: nat, j: nat)
    requires i < j < i + WORD
    ensures Add32(start, i) != Add32(start, j)
  {
    if Add32(start, i) == Add32(start, j) {
      ModDifferenceZero(start + i, start + j, WORD);
    }
  }

  lemma ModDifferenceZero(a: nat, b: nat, m: nat)
    requires a < b < a + m && m > 0
    ensures a % m != b % m
  {
    if a % m == b % m {
      var p, q := a / m, b / m;
      assert a == p * m + a % m && b == q * m + b % m;
      assert (q - p) * m == q * m - p * m;
      ModUnique(b - a, q - p, 0, m);
      ModUnique(b - a, 0, b - a, m);
    }
  }

  lemma {:induction false} UnnamedWereTried(m: map<u32, u32>, start: u32, n: nat, name: u32) returns (i: nat)
    requires name in Unnamed(m, start, n)
    ensures i < n && name == Add32(start, i)
  {
    if name in Unnamed(m, start, n - 1) {
      i := UnnamedWereTried(m, start, n - 1, name);
    } else {
      i := n - 1;
    }
  }

  lemma {:induction false} NotHeldWas(passed: seq<u32>, held: set<u32>, name: u32)
    requires name in NotHeld(passed, held)
    ensures name in passed
  {
    if name in NotHeld(passed[..|passed| - 1], held) {
      NotHeldWas(passed[..|passed| - 1], held, name);
    }
  }

  /** A candidate tried later is none of the names stored since. */
  lemma NotStoredSince(m: map<u32, u32>, native: bool, host: set<u32>, start: u32, n: nat, j: nat)
    requires n <= j < WORD
    ensures Add32(start, j) !in Storable(m, native, host, start, n)
  {
    var name := Add32(start, j);
    if name in Storable(m, native, host, start, n) {
      NotHeldWas(Unnamed(m, start, n), Queried(native, host), name);
      var i := UnnamedWereTried(m, start, n, name);
      TriedOnce(start, i, j);
    }
  }

  /** Candidates are considered in the table as it was exactly when they are in the table as it is. */
  lemma {:induction false} UnnamedMore(before: map<u32, u32>, names: seq<u32>, native: bool, host: set<u32>, start: u32, n: nat, k: nat)
    requires names == Storable(before, native, host, start, n) && n + k <= WORD
    ensures Unnamed(before, start, n + k) == Unnamed(before, start, n) + Unnamed(Reserved(before, names, 0), Add32(start, n), k)
  {
    hide Storable;
    if k > 0 {
      UnnamedMore(before, names, native, host, start, n, k - 1);
      NotStoredSince(before, native, host, start, n, n + k - 1);
      SumTried(start, n, k - 1);
      assert n + k - 1 == n + (k - 1);
    }
  }

  lemma SumTried(start: u32, n: nat, k: nat)
    ensures Add32(Add32(start, n), k) == Add32(start, n + k)
  {
  }

  lemma {:induction false} UnnamedAreHeld(m: map<u32, u32>, start: u32, k: nat, held: set<u32>)
    requires AllUsed(start, k, m.Keys + {0} + held)
    ensures forall i :: 0 <= i < |Unnamed(m, start, k)| ==> Unnamed(m, start, k)[i] in held
  {
    if k > 0 {
      UnnamedAreHeld(m, start, k - 1, held);
    }
  }

  /** One more search of the same call: `tried` candidates, of which only the last may be stored. */
  lemma TriedMore(before: map<u32, u32>, now: map<u32, u32>, names: seq<u32>, native: bool, host: set<u32>, start: u32, n: nat, tried: nat)
    requires now == Reserved(before, names, 0) && names == Storable(before, native, host, start, n) && tried > 0
    requires AllUsed(start, n, now.Keys + {0} + Queried(native, host)) && |now.Keys + {0} + Queried(native, host)| < WORD
    requires AllUsed(Add32(start, n), tried - 1, now.Keys + {0} + Queried(native, host)) && Offered(now, Add32(Add32(start, n), tried - 1))
    ensures var candidate := Add32(Add32(start, n), tried - 1);
            && candidate == Add32(start, n + tried - 1) && Offered(before, candidate)
            && AllUsed(start, n + tried - 1, now.Keys + {0} + Queried(native, host))
            && |Unnamed(before, start, n + tried)| == |Unnamed(before, start, n)| + |Unnamed(now, Add32(start, n), tried)|
            && |Unnamed(before, start, n + tried)| == |Unnamed(before, start, n + tried - 1)| + 1
            && Storable(before, native, host, start, n + tried - 1) == names
            && (candidate !in Queried(native, host) ==> Storable(before, native, host, start, n + tried) == names + [candidate])
  {
    hide Reserved, AllUsed, Add32, Unnamed, NotHeld;
    var used, held, k := now.Keys + {0} + Queried(native, host), Queried(native, host), tried - 1;
    var passed, more := Unnamed(before, start, n), Unnamed(now, Add32(start, n), k);
    SumTried(start, n, k);
    assert n + k == n + tried - 1;
    UsedBoth(start, n, k, used);
    UsedBelow(start, n + k, used);
    UnnamedMore(before, names, native, host, start, n, k);
    UnnamedMore(before, names, native, host, start, n, tried);
    UnnamedAreHeld(now, Add32(start, n), k, held);
    HeldAddNothing(passed, more, held);
    OfferedBefore(before, names, Add32(start, n + k));
    LastTried(before, start, n + k);
    NotHeldOneMore(passed + more, held, Add32(start, n + k));
  }

  /** A search that ends at a candidate to store. */
  lemma TryStores(before: map<u32, u32>, now: map<u32, u32>, native: bool, start: u32, count: u32, host: set<u32>,
                  answered: nat -> bool, names: seq<u32>, n: nat, first: nat, candidate: u32, asked: nat, tried: nat)
    requires Trying(before, now, native, start, count, host, answered, names, n, first) && |names| < count
    requires Offers(now, native, host, answered, Add32(start, n), first, candidate, asked, true, tried)
    requires |now.Keys + {0} + Queried(native, host)| < WORD
    ensures Trying(before, now[candidate := 0], native, start, count, host, answered, names + [candidate], n + tried, asked)
  {
    hide Reserved, Fresh, AllUsed, Add32, Unnamed, Storable, Queried;
    TriedMore(before, now, names, native, host, start, n, tried);
    OneMoreName(before, Queried(native, host), names, candidate);
    UsedStays(start, n + tried, before, names, Queried(native, host), candidate);
    if native {
      AnsweredMore(answered, first, asked);
    }
  }

  /** A search that ends at a query that fails. */
  lemma TryFails(before: map<u32, u32>, now: map<u32, u32>, native: bool, limit: nat, start: u32, count: u32, host: set<u32>,
                 answered: nat -> bool, names: seq<u32>, n: nat, first: nat, candidate: u32, asked: nat, tried: nat)
    requires Trying(before, now, native, start, count, host, answered, names, n, first) && |names| < count <= limit - |before|
    requires Offers(now, native, host, answered, Add32(start, n), first, candidate, asked, false, tried)
    requires |now.Keys + {0} + Queried(native, host)| < WORD
    ensures Reserves(before, native, limit, start, count, host, answered, names, Interrupted, n + tried, now)
  {
    hide Reserved, Fresh, AllUsed, Add32, Unnamed, Storable, Queried;
    TriedMore(before, now, names, native, host, start, n, tried);
    AnsweredMore(answered, first, asked);
  }

  lemma AnsweredMore(answered: nat -> bool, first: nat, asked: nat)
    requires AllAnswered(answered, first) && first < asked && forall k :: first <= k < asked - 1 ==> answered(k)
    ensures AllAnswered(answered, asked - 1) && (answered(asked - 1) ==> AllAnswered(answered, asked))
  {
  }

  lemma TryingStarts(m: map<u32, u32>, native: bool, start: u32, count: u32, host: set<u32>, answered: nat -> bool)
    ensures Trying(m, m, native, start, count, host, answered, [], 0, 0) && Add32(start, 0) == start
  {
    hide Reserved, Fresh;
    NothingReserved(m, 0);
    NothingFresh(m.Keys + Queried(native, host));
  }

  lemma NoneReserved(m: map<u32, u32>, native: bool, limit: nat, start: u32, count: u32, host: set<u32>, answered: nat -> bool)
    requires count > limit - |m|
    ensures Reserves(m, native, limit, start, count, host, answered, [], NoRoom, 0, m) && Add32(start, 0) == start
  {
    hide Reserved, Fresh;
    NothingReserved(m, 0);
    NothingFresh(m.Keys + Queried(native, host));
  }

  lemma TryingEnds(before: map<u32, u32>, now: map<u32, u32>, native: bool, limit: nat, start: u32, count: u32, host: set<u32>,
                   answered: nat -> bool, names: seq<u32>, n: nat, asked: nat)
    requires Trying(before, now, native, start, count, host, answered, names, n, asked) && |names| == count <= limit - |before|
    ensures Reserves(before, native, limit, start, count, host, answered, names, Complete, n, now)
  {
    hide Reserved, Fresh, AllUsed, Add32, Unnamed, Storable, Queried;
  }

  lemma OfferedBefore(m: map<u32, u32>, names: seq<u32>, candidate: u32)
    requires Offered(Reserved(m, names, 0), candidate)
    ensures Offered(m, candidate)
  {
  }

  lemma LastTried(m: map<u32, u32>, start: u32, k: nat)
    requires Offered(m, Add32(start, k))
    ensures Unnamed(m, start, k + 1) == Unnamed(m, start, k) + [Add32(start, k)]
  {
  }

  lemma UsedBoth(start: u32, n: nat, k: nat, used: set<u32>)
    requires AllUsed(start, n, used) && AllUsed(Add32(start, n), k, used)
    ensures AllUsed(start, n + k, used)
  {
    forall j | n <= j < n + k
      ensures Add32(start, j) in used
    {
      SumTried(start, n, j - n);
    }
  }

  lemma UsedBelow(start: u32, n: nat, used: set<u32>)
    requires AllUsed(start, n, used) && |used| < WORD
    ensures n < WORD
  {
    if n >= WORD {
      UsedRunFits(start, WORD, used);
    }
  }

  lemma UsedStays(start: u32, n: nat, m: map<u32, u32>, names: seq<u32>, held: set<u32>, name: u32)
    requires n > 0 && name == Add32(start, n - 1) && AllUsed(start, n - 1, Reserved(m, names, 0).Keys + {0} + held)
    ensures AllUsed(start, n, Reserved(m, names, 0)[name := 0].Keys + {0} + held)
  {
  }

  // ---- Any run of calls ----

  datatype Request =
    | Generate(count: u32, host: set<u32>, answered: nat -> bool)
    | Bind(target: u32, texture: u32, room: bool)
    | Test(texture: u32, answer: Option<bool>)
    | Forget(textures: seq<u32>)
    | UseLists

  datatype Reply = Names(names: seq<u32>, outcome: Outcome) | BindOutcome(bound: Bound) | Answer(yes: bool) | Done

  /** A plain map of names to targets, the next candidate, and whether native lists have been used. */
  datatype Plain = Plain(targets: map<u32, u32>, next: u32, native: bool)

  /** What a plain map of at most `limit` names answers, and the map it leaves. */
  ghost predicate PlainStep(a: Plain, limit: nat, request: Request, reply: Reply, b: Plain) {
    match request
    case Generate(count, host, answered) =>
      reply.Names? && b.native == a.native
      && exists n: nat :: Reserves(a.targets, a.native, limit, a.next, count, host, answered, reply.names, reply.outcome, n, b.targets)
                     && b.next == Add32(a.next, n)
    case Bind(target, texture, room) =>
      reply.BindOutcome? && b.native == a.native && b.next == a.next && BindAnswers(a.targets, a.native, limit, target, texture, room, reply.bound, b.targets)
    case Test(texture, answer) =>
      reply == Answer(texture != 0 && if a.native then answer == Some(true) else texture in a.targets && a.targets[texture] != 0) && b == a
    case Forget(textures) =>
      reply == Done && b == Plain(a.targets - Listed(textures), a.next, a.native)
    case UseLists =>
      reply == Done && b == Plain(a.targets, a.next, true)
  }

  predicate Servable(slots: nat, request: Request) {
    match request
    case Generate(_, host, _) => slots + |host| < WORD
    case Bind(target, _, _) => target != 0
    case _ => true
  }

  /** The replies are those of a plain map that starts empty and passes through `states`. */
  ghost predicate PlainRun(states: seq<Plain>, limit: nat, requests: seq<Request>, replies: seq<Reply>) {
    && |states| == |requests| + 1 && |replies| == |requests| && states[0] == Plain(map[], 1, false)
    && forall i :: 0 <= i < |requests| ==> PlainStep(states[i], limit, requests[i], replies[i], states[i + 1])
  }

  ghost function Now(table: TextureTable): Plain
    reads table, table.Entries
  {
    Plain(table.Map(), table.Next, table.NativeLists)
  }

  /** One call of the namespace answers as the plain map does. */
  method Serve(table: TextureTable, request: Request) returns (reply: Reply)
    requires table.Valid() && Servable(table.slots, request)
    modifies table, table.Entries
    ensures table.Valid() && PlainStep(old(Now(table)), table.slots / 2, request, reply, Now(table))
  {
    hide Linked, Contents, PowerOfTwo, Reserves, BindAnswers, Listed, Add32;
    match request {
      case Generate(count, host, answered) =>
        var names, outcome;
        ghost var n;
        names, outcome, n := table.GenTextures(count, host, answered);
        reply := Names(names, outcome);
      case Bind(target, texture, room) =>
        var bound := table.BindTexture(target, texture, room);
        reply := BindOutcome(bound);
      case Test(texture, answer) =>
        var yes := table.IsTexture(texture, answer);
        reply := Answer(yes);
      case Forget(textures) =>
        table.ForgetTextures(textures);
        reply := Done;
      case UseLists =>
        table.UseLists();
        reply := Done;
    }
  }

  /** Any run of calls on a new table of `slots` answers as a plain map of half as many names would. */
  method RunAgreesWithMap(slots: nat, requests: seq<Request>) returns (replies: seq<Reply>)
    requires PowerOfTwo(slots) && 2 <= slots <= HALF && forall i :: 0 <= i < |requests| ==> Servable(slots, requests[i])
    ensures exists states :: PlainRun(states, slots / 2, requests, replies)
  {
    hide Linked, PlainStep, Contents, PowerOfTwo;
    var table := new TextureTable(slots);
    replies := [];
    ghost var states := [Now(table)];
    for i := 0 to |requests|
      invariant fresh(table) && fresh(table.Entries) && table.Valid() && table.slots == slots
      invariant PlainRun(states, slots / 2, requests[..i], replies) && states[i] == Now(table)
    {
      var reply := Serve(table, requests[i]);
      assert requests[..i + 1] == requests[..i] + [requests[i]];
      replies, states := replies + [reply], states + [Now(table)];
    }
    assert requests[..|requests|] == requests;
  }
}
