/**
 * Linear probing where a deletion shifts later entries back: the name tables of
 * guest/opengl/framebuffer.cpp and guest/opengl/buffers.h.
 */
module ProbeTable {
  import opened Words

  /** A slot; name zero is an empty one. */
  datatype Entry<T> = Entry(Name: u32, Payload: T)

  function NameSlot(slots: nat, name: u32): (slot: nat)
    requires slots > 0
    ensures slot < slots
  {
    name * 2654435761 % WORD % slots
  }

  /** `(at + 1) & Mask`. */
  function NextSlot(slots: nat, at: nat): nat {
    if at + 1 == slots then 0 else at + 1
  }

  /** Steps forward, around the table, from slot a to slot b. */
  function Steps(slots: nat, a: int, b: int): int {
    if a <= b then b - a else b - a + slots
  }

  /** Slot j is probed before slot i in a search that starts at the home of the name in i. */
  ghost predicate OnPath<T>(s: seq<Entry<T>>, i: nat, j: nat)
    requires i < |s|
  {
    var home := NameSlot(|s|, s[i].Name);
    Steps(|s|, home, j) < Steps(|s|, home, i)
  }

  /** Every search for a stored name meets no empty slot, except perhaps `hole`. */
  ghost predicate ChainedBut<T>(s: seq<Entry<T>>, hole: int)
  {
    forall i, j :: 0 <= i < |s| && 0 <= j < |s| && j != hole && s[i].Name != 0 && OnPath(s, i, j) ==> s[j].Name != 0
  }

  ghost predicate Unique<T>(s: seq<Entry<T>>)
  {
    forall i, j :: 0 <= i < |s| && 0 <= j < |s| && s[i].Name != 0 && s[i].Name == s[j].Name ==> i == j
  }

  /** Empty slots hold the vacant payload, which ObjectExists and JglBufferObject read. */
  ghost predicate Clean<T>(s: seq<Entry<T>>, vacant: T)
  {
    forall i :: 0 <= i < |s| && s[i].Name == 0 ==> s[i].Payload == vacant
  }

  /** The invariant of the table: unbroken probe chains over unique names. */
  ghost predicate Chained<T>(s: seq<Entry<T>>)
  {
    |s| > 0 && ChainedBut(s, -1) && Unique(s)
  }

  ghost function Names<T>(s: seq<Entry<T>>): set<u32> {
    set i | 0 <= i < |s| && s[i].Name != 0 :: s[i].Name
  }

  ghost function SlotOf<T>(s: seq<Entry<T>>, name: u32): (i: nat)
    requires name in Names(s)
    ensures i < |s| && s[i].Name == name && name != 0
  {
    var i :| 0 <= i < |s| && s[i].Name != 0 && s[i].Name == name;
    i
  }

  /** The plain map the table stands for. */
  ghost function Contents<T>(s: seq<Entry<T>>): map<u32, T> {
    map name | name in Names(s) :: s[SlotOf(s, name)].Payload
  }

  lemma ContentsOf<T>(s: seq<Entry<T>>, m: map<u32, T>)
    requires Unique(s)
    requires forall i :: 0 <= i < |s| && s[i].Name != 0 ==> s[i].Name in m && m[s[i].Name] == s[i].Payload
    requires forall name :: name in m ==> exists i :: 0 <= i < |s| && s[i].Name != 0 && s[i].Name == name
    ensures Contents(s) == m
  {
    assert Names(s) == m.Keys;
  }

  lemma ContentsHas<T>(s: seq<Entry<T>>, i: nat)
    requires Chained(s) && i < |s| && s[i].Name != 0
    ensures Unique(s) && s[i].Name in Contents(s)
    ensures |Contents(s)| > 0 && |Contents(s) - {s[i].Name}| == |Contents(s)| - 1
  {
    assert (Contents(s) - {s[i].Name}).Keys == Contents(s).Keys - {s[i].Name};
  }

  /** A search for `name` passes every slot before `at` without stopping. */
  ghost predicate PassesTo<T>(s: seq<Entry<T>>, name: u32, at: nat)
    requires |s| > 0
  {
    var home := NameSlot(|s|, name);
    forall j :: 0 <= j < |s| && Steps(|s|, home, j) < Steps(|s|, home, at) ==> s[j].Name != 0 && s[j].Name != name
  }

  /** Where a search for `name` stops: its entry, or the empty slot that ends its chain. */
  ghost predicate StopsAt<T>(s: seq<Entry<T>>, name: u32, at: nat)
    requires at < |s|
  {
    (s[at].Name == 0 || s[at].Name == name) && PassesTo(s, name, at)
  }

  lemma PassingOn<T>(s: seq<Entry<T>>, name: u32, at: nat, empty: nat)
    requires at < |s| && empty < |s| && s[empty].Name == 0 && PassesTo(s, name, at)
    requires s[at].Name != 0 && s[at].Name != name
    ensures PassesTo(s, name, NextSlot(|s|, at))
    ensures Steps(|s|, NextSlot(|s|, at), empty) < Steps(|s|, at, empty)
  {
    var home := NameSlot(|s|, name);
    assert Steps(|s|, home, at) < Steps(|s|, home, empty);
  }

  /** A search agrees with the map: it finds exactly the names the map has. */
  lemma SearchAgreesWithMap<T>(s: seq<Entry<T>>, name: u32, at: nat)
    requires Chained(s) && name != 0 && at < |s| && StopsAt(s, name, at)
    ensures s[at].Name == name <==> name in Contents(s)
    ensures name in Contents(s) ==> Contents(s)[name] == s[at].Payload
  {
    if name in Contents(s) {
      var i :| 0 <= i < |s| && s[i].Name == name;
      assert OnPath(s, i, at) ==> s[at].Name != 0;
    }
  }

  /** Storing a name where its search stopped keeps every chain ... */
  lemma StoreKeepsChains<T>(s: seq<Entry<T>>, name: u32, at: nat, payload: T)
    requires Chained(s) && name != 0 && at < |s| && StopsAt(s, name, at)
    ensures Chained(s[at := Entry(name, payload)])
  {
    var s' := s[at := Entry(name, payload)];
    SearchAgreesWithMap(s, name, at);
    forall i, j | 0 <= i < |s| && 0 <= j < |s| && j != at && s'[i].Name != 0 && OnPath(s', i, j)
      ensures s'[j].Name != 0
    {
      assert i != at ==> OnPath(s, i, j);
    }
  }

  /** ... and changes the map at that name only. */
  lemma StoreUpdatesMap<T>(s: seq<Entry<T>>, name: u32, at: nat, payload: T)
    requires Chained(s) && name != 0 && at < |s| && StopsAt(s, name, at)
    ensures Unique(s[at := Entry(name, payload)])
    ensures Contents(s[at := Entry(name, payload)]) == Contents(s)[name := payload]
  {
    StoreKeepsChains(s, name, at, payload);
    SearchAgreesWithMap(s, name, at);
    var s' := s[at := Entry(name, payload)];
    var m := Contents(s)[name := payload];
    forall k | k in m
      ensures exists i :: 0 <= i < |s'| && s'[i].Name != 0 && s'[i].Name == k
    {
      if k == name {
        assert s'[at].Name == k;
      } else {
        var i :| 0 <= i < |s| && s[i].Name != 0 && s[i].Name == k;
        assert s'[i].Name == k;
      }
    }
    ContentsOf(s', m);
  }

  /**
   * Midway through a backward-shift deletion: `hole` is the slot to refill and
   * the slots after it up to `at` are occupied and need not move.
   */
  ghost predicate Shifting<T>(s: seq<Entry<T>>, hole: nat, at: nat)
  {
    && hole < |s| && at < |s| && s[hole].Name == 0 && Unique(s) && ChainedBut(s, hole)
    && (forall j :: 0 <= j < |s| && 0 < Steps(|s|, hole, j) <= Steps(|s|, hole, at) ==> s[j].Name != 0)
    && (forall i :: 0 <= i < |s| && s[i].Name != 0 && OnPath(s, i, hole)
          ==> Steps(|s|, hole, at) < Steps(|s|, hole, i))
  }

  lemma EmptyingLeavesHole<T>(s: seq<Entry<T>>, hole: nat, vacant: T)
    requires ChainedBut(s, -1) && hole < |s|
    ensures ChainedBut(s[hole := Entry(0, vacant)], hole)
  {
    var s' := s[hole := Entry(0, vacant)];
    forall i, j | 0 <= i < |s'| && 0 <= j < |s'| && j != hole && s'[i].Name != 0 && OnPath(s', i, j)
      ensures s'[j].Name != 0
    {
      assert OnPath(s, i, j);
    }
  }

  lemma EmptyingRemovesName<T>(s: seq<Entry<T>>, hole: nat, vacant: T)
    requires Unique(s) && hole < |s| && s[hole].Name != 0
    ensures Unique(s[hole := Entry(0, vacant)])
    ensures Contents(s[hole := Entry(0, vacant)]) == Contents(s) - {s[hole].Name}
  {
    var s' := s[hole := Entry(0, vacant)];
    var m := Contents(s) - {s[hole].Name};
    assert forall i :: 0 <= i < |s| && i != hole ==> s'[i] == s[i];
    forall k | k in m
      ensures exists i :: 0 <= i < |s'| && s'[i].Name != 0 && s'[i].Name == k
    {
      var i :| 0 <= i < |s| && s[i].Name != 0 && s[i].Name == k;
      assert s'[i].Name == k;
    }
    ContentsOf(s', m);
  }

  /** Emptying a slot removes its name from the map and starts a shift there. */
  lemma EmptyingStartsShift<T>(s: seq<Entry<T>>, hole: nat, vacant: T)
    requires Chained(s) && Clean(s, vacant) && hole < |s| && s[hole].Name != 0
    ensures var s' := s[hole := Entry(0, vacant)];
            && Shifting(s', hole, hole) && Unique(s') && Clean(s', vacant)
            && Contents(s') == Contents(s) - {s[hole].Name}
  {
    EmptyingLeavesHole(s, hole, vacant);
    EmptyingRemovesName(s, hole, vacant);
  }

  /** An entry whose chain does not cross the hole stays where it is. */
  lemma PassingKeepsShift<T>(s: seq<Entry<T>>, hole: nat, at: nat)
    requires Shifting(s, hole, at) && s[NextSlot(|s|, at)].Name != 0
    requires !OnPath(s, NextSlot(|s|, at), hole)
    ensures Shifting(s, hole, NextSlot(|s|, at))
  {
    var next := NextSlot(|s|, at);
    assert Steps(|s|, hole, next) == Steps(|s|, hole, at) + 1;
    forall i | 0 <= i < |s| && s[i].Name != 0 && OnPath(s, i, hole)
      ensures Steps(|s|, hole, next) < Steps(|s|, hole, i)
    {
      assert i != next;
    }
  }

  /** The table after its entry at `next` has filled the hole. */
  ghost function Moved<T>(s: seq<Entry<T>>, hole: nat, next: nat, vacant: T): seq<Entry<T>>
    requires hole < |s| && next < |s|
  {
    s[hole := s[next]][next := Entry(0, vacant)]
  }

  lemma MovingKeepsPaths<T>(s: seq<Entry<T>>, hole: nat, next: nat, vacant: T)
    requires hole < |s| && next < |s| && s[hole].Name == 0 && s[next].Name != 0
    requires ChainedBut(s, hole) && OnPath(s, next, hole)
    ensures ChainedBut(Moved(s, hole, next, vacant), next)
  {
    var s' := Moved(s, hole, next, vacant);
    forall i, j | 0 <= i < |s'| && 0 <= j < |s'| && j != next && s'[i].Name != 0 && OnPath(s', i, j)
      ensures s'[j].Name != 0
    {
      if i == hole {
        assert OnPath(s, next, j);
      } else {
        assert OnPath(s, i, j);
      }
    }
  }

  lemma MovingKeepsMap<T>(s: seq<Entry<T>>, hole: nat, next: nat, vacant: T)
    requires hole < |s| && next < |s| && s[hole].Name == 0 && s[next].Name != 0 && Unique(s)
    ensures Unique(Moved(s, hole, next, vacant))
    ensures Contents(Moved(s, hole, next, vacant)) == Contents(s)
  {
    var s' := Moved(s, hole, next, vacant);
    var m := Contents(s);
    assert forall i :: 0 <= i < |s| && i != hole && i != next ==> s'[i] == s[i];
    forall k | k in m
      ensures exists i :: 0 <= i < |s'| && s'[i].Name != 0 && s'[i].Name == k
    {
      var i :| 0 <= i < |s| && s[i].Name != 0 && s[i].Name == k;
      assert s'[if i == next then hole else i].Name == k;
    }
    ContentsOf(s', m);
  }

  /** An entry whose chain crosses the hole fills it and leaves a new hole behind. */
  lemma MovingKeepsShift<T>(s: seq<Entry<T>>, hole: nat, at: nat, vacant: T)
    requires Shifting(s, hole, at) && Clean(s, vacant) && s[NextSlot(|s|, at)].Name != 0
    requires OnPath(s, NextSlot(|s|, at), hole)
    ensures Shifting(Moved(s, hole, NextSlot(|s|, at), vacant), NextSlot(|s|, at), NextSlot(|s|, at))
    ensures Unique(Moved(s, hole, NextSlot(|s|, at), vacant)) && Clean(Moved(s, hole, NextSlot(|s|, at), vacant), vacant)
    ensures Contents(Moved(s, hole, NextSlot(|s|, at), vacant)) == Contents(s)
  {
    MovingKeepsPaths(s, hole, NextSlot(|s|, at), vacant);
    MovingKeepsMap(s, hole, NextSlot(|s|, at), vacant);
  }

  /** The shift may stop at the first empty slot: every chain is whole again. */
  lemma EmptySlotEndsShift<T>(s: seq<Entry<T>>, hole: nat, at: nat)
    requires Shifting(s, hole, at) && s[NextSlot(|s|, at)].Name == 0
    ensures Chained(s)
  {
    var next := NextSlot(|s|, at);
    forall i | 0 <= i < |s| && s[i].Name != 0
      ensures !OnPath(s, i, hole)
    {
      var crosses := OnPath(s, i, next);
      assert crosses ==> next == hole;
    }
  }

  /** The comparison RemoveObjectName makes on masked words is "the chain crosses the hole". */
  lemma MaskedSteps(slots: nat, from: nat, to: nat)
    requires PowerOfTwo(slots) && slots <= WORD && from < slots && to < slots
    ensures slots > 0 && Sub32(to, from) % slots == Steps(slots, from, to)
  {
    MaskedWord(to - from, slots);
    ModUnique(to - from, if from <= to then 0 else -1, Steps(slots, from, to), slots);
  }

  lemma MaskedNext(slots: nat, at: nat)
    requires PowerOfTwo(slots) && slots <= WORD && at < slots
    ensures slots > 0 && Add32(at, 1) % slots == NextSlot(slots, at)
  {
    MaskedWord(at + 1, slots);
    ModUnique(at + 1, if at + 1 == slots then 1 else 0, NextSlot(slots, at), slots);
  }

  /** Distinct names fill at most |Contents| slots, so a table under its limit has an empty one. */
  lemma {:induction false} OccupiedPrefix<T>(s: seq<Entry<T>>, k: nat)
    requires Unique(s) && k <= |s|
    requires forall i :: 0 <= i < k ==> s[i].Name != 0
    ensures k <= |set i | 0 <= i < k :: s[i].Name|
  {
    if k > 0 {
      OccupiedPrefix(s, k - 1);
      var names := set i | 0 <= i < k - 1 :: s[i].Name;
      assert s[k - 1].Name !in names;
      assert (set i | 0 <= i < k :: s[i].Name) == names + {s[k - 1].Name};
    }
  }

  lemma SomeSlotIsEmpty<T>(s: seq<Entry<T>>) returns (empty: nat)
    requires Unique(s) && |Contents(s)| < |s|
    ensures empty < |s| && s[empty].Name == 0
  {
    if forall i :: 0 <= i < |s| ==> s[i].Name != 0 {
      OccupiedPrefix(s, |s|);
      SubsetSize(set i | 0 <= i < |s| :: s[i].Name, Contents(s).Keys);
      assert false;
    }
    empty :| 0 <= empty < |s| && s[empty].Name == 0;
  }

  lemma {:induction false} SubsetSize<X>(a: set<X>, b: set<X>)
    requires a <= b
    ensures |a| <= |b|
  {
    if x :| x in a {
      SubsetSize(a - {x}, b - {x});
    }
  }

  /**
   * The table of one namespace: JGL_OBJECT_NAMES with T = bool, JGL_BUFFERS
   * with T an optional buffer. `vacant` is the payload of an empty slot.
   */
  class NameTable<T(==)> {
    const slots: nat
    const vacant: T
    const Entries: array<Entry<T>>
    var Count: u32
    var Next: u32

    ghost predicate Valid()
      reads this, Entries
    {
      && PowerOfTwo(slots) && slots <= HALF && Entries.Length == slots
      && Chained(Entries[..]) && Clean(Entries[..], vacant)
      && Count == |Contents(Entries[..])| && 2 * Count <= slots && Count < slots
    }

    ghost function Map(): map<u32, T>
      requires Valid()
      reads this, Entries
    {
      Contents(Entries[..])
    }

    constructor (slots: nat, vacant: T)
      requires PowerOfTwo(slots) && slots <= HALF
      ensures Valid() && Map() == map[] && fresh(Entries)
      ensures this.slots == slots && this.vacant == vacant && Count == 0 && Next == 1
    {
      this.slots, this.vacant := slots, vacant;
      Entries := new Entry<T>[slots](_ => Entry(0, vacant));
      Count, Next := 0, 1;
      new;
      ContentsOf(Entries[..], map[]);
    }

    /** FindObjectName and JglFindBuffer: where the name is, or where a search for it gives up. */
    method Find(name: u32) returns (at: nat)
      requires Valid()
      ensures at < slots && StopsAt(Entries[..], name, at)
      ensures name != 0 ==> (Entries[at].Name == name <==> name in Map())
      ensures name != 0 && name in Map() ==> Map()[name] == Entries[at].Payload
      ensures name != 0 && name !in Map() ==> Entries[at] == Entry(0, vacant)
    {
      ghost var s := Entries[..];
      ghost var empty := SomeSlotIsEmpty(s);
      at := NameSlot(slots, name);
      while !(Entries[at].Name == 0 || Entries[at].Name == name)
        invariant at < slots && PassesTo(s, name, at)
        decreases Steps(slots, at, empty)
      {
        PassingOn(s, name, at, empty);
        MaskedNext(slots, at);
        at := Add32(at, 1) % slots;
      }
      if name != 0 {
        SearchAgreesWithMap(s, name, at);
      }
    }

    /** Store a new name in the slot where its search stopped, or a new payload in its entry. */
    method Store(at: nat, name: u32, payload: T)
      requires Valid() && name != 0 && at < slots && StopsAt(Entries[..], name, at)
      requires name in Map() || 2 * (Count + 1) <= slots
      modifies this`Count, Entries
      ensures Valid() && Map() == old(Map())[name := payload]
      ensures Count == if name in old(Map()) then old(Count) else old(Count) + 1
    {
      hide PassesTo, Chained, Contents;
      ghost var before := Entries[..];
      SearchAgreesWithMap(before, name, at);
      StoreKeepsChains(before, name, at, payload);
      StoreUpdatesMap(before, name, at, payload);
      PutSize(Contents(before), name, payload);
      if Entries[at].Name == 0 {
        Count := Count + 1;
      }
      Entries[at] := Entry(name, payload);
      assert Entries[..] == before[at := Entry(name, payload)];
    }

    /** RemoveObjectName and RemoveBuffer. */
    method Remove(entry: nat)
      requires Valid() && entry < slots && Entries[entry].Name != 0
      modifies this`Count, Entries
      ensures Valid() && Count == old(Count) - 1
      ensures Map() == old(Map()) - {old(Entries[entry].Name)}
    {
      hide Shifting, Chained, Unique, Clean, Contents;
      ghost var before := Entries[..];
      ContentsHas(before, entry);
      ghost var empty := SomeSlotIsEmpty(before);
      var hole: nat, at: nat := entry, entry;
      EmptyingStartsShift(before, hole, vacant);
      Entries[entry] := Entry(0, vacant);
      Count := Count - 1;
      ghost var now := before[entry := Entry(0, vacant)];
      while true
        invariant |now| == slots && hole < slots && at < slots && at != empty && hole != empty && now[empty].Name == 0
        invariant Entries[..] == now && Shifting(now, hole, at) && Unique(now) && Clean(now, vacant)
        invariant Contents(now) == Contents(before) - {before[entry].Name}
        modifies Entries
        decreases Steps(slots, at, empty)
      {
        ghost var last := at;
        MaskedNext(slots, at);
        at := Add32(at, 1) % slots;
        if Entries[at].Name == 0 {
          EmptySlotEndsShift(now, hole, last);
          return;
        }
        var origin := NameSlot(slots, Entries[at].Name);
        MaskedSteps(slots, origin, hole);
        MaskedSteps(slots, origin, at);
        if Sub32(hole, origin) % slots < Sub32(at, origin) % slots {
          MovingKeepsShift(now, hole, last, vacant);
          now := Moved(now, hole, at, vacant);
          Entries[hole] := Entries[at];
          Entries[at] := Entry(0, vacant);
          hole := at;
        } else {
          PassingKeepsShift(now, hole, last);
        }
      }
    }

    /** The candidates Generate passes over: zero and the names in use. */
    method NextUnused() returns (candidate: u32, at: nat)
      requires Valid()
      modifies this`Next
      ensures Valid() && Map() == old(Map())
      ensures candidate != 0 && candidate !in Map() && at < slots && StopsAt(Entries[..], candidate, at)
    {
      hide Chained, Clean, Contents, PassesTo, AllUsed, Add32;
      ghost var used, start, passed: nat := Map().Keys + {0}, Next, 0;
      NoneUsed(start, used);
      while true
        invariant Valid() && Map() == old(Map())
        invariant passed <= |used| && Next == Add32(start, passed) && AllUsed(start, passed, used)
        decreases |used| - passed
      {
        candidate := Next;
        Next := Add32(Next, 1);
        if candidate != 0 {
          at := Find(candidate);
          if Entries[at].Name == 0 {
            return;
          }
        }
        OneMoreUsed(start, passed, used);
        passed := passed + 1;
      }
    }

    /**
     * GenerateNames and the loop of glGenBuffersARB: either `count` names that
     * are not in use become so, or the table stays as it is.
     */
    method Generate(limit: u32, count: u32) returns (names: seq<u32>, reserved: bool)
      requires Valid() && Count <= limit && 2 * limit <= slots
      modifies this, Entries
      ensures Valid() && Count <= limit
      ensures reserved <==> count <= limit - old(Count)
      ensures !reserved ==> names == [] && Map() == old(Map()) && Next == old(Next)
      ensures reserved ==> |names| == count && Fresh(old(Map()).Keys, names)
      ensures reserved ==> Map() == Reserved(old(Map()), names, vacant)
    {
      hide Chained, Clean, Contents, StopsAt, Reserved, Fresh;
      names := [];
      if count > limit - Count {
        return names, false;
      }
      reserved := true;
      ghost var before := Map();
      NothingReserved(before, vacant);
      while |names| < count
        invariant Valid() && Map() == Reserved(before, names, vacant)
        invariant |names| <= count && Count + (count - |names|) <= limit && Fresh(before.Keys, names)
      {
        var candidate, at := NextUnused();
        Store(at, candidate, vacant);
        FreshOneMore(before, names, candidate, vacant);
        names := names + [candidate];
      }
    }
  }

  /** Distinct nonzero names, none of them used before. */
  ghost predicate Fresh(used: set<u32>, names: seq<u32>) {
    && (forall i :: 0 <= i < |names| ==> names[i] != 0 && names[i] !in used)
    && (forall i, j :: 0 <= i < j < |names| ==> names[i] != names[j])
  }

  ghost function Reserved<T>(m: map<u32, T>, names: seq<u32>, vacant: T): map<u32, T> {
    m + map name | name in names :: vacant
  }

  lemma NothingReserved<T>(m: map<u32, T>, vacant: T)
    ensures Fresh(m.Keys, []) && Reserved(m, [], vacant) == m
  {
  }

  lemma FreshOneMore<T>(m: map<u32, T>, names: seq<u32>, name: u32, vacant: T)
    requires Fresh(m.Keys, names) && name != 0 && name !in Reserved(m, names, vacant)
    ensures Fresh(m.Keys, names + [name])
    ensures Reserved(m, names + [name], vacant) == Reserved(m, names, vacant)[name := vacant]
  {
    hide Fresh, Reserved;
    NotReserved(m, names, name, vacant);
    FreshAppend(m.Keys, names, name);
    ReservedAppend(m, names, name, vacant);
  }

  lemma NotReserved<T>(m: map<u32, T>, names: seq<u32>, name: u32, vacant: T)
    requires name !in Reserved(m, names, vacant)
    ensures name !in m && name !in names
  {
  }

  lemma FreshAppend(used: set<u32>, names: seq<u32>, name: u32)
    requires Fresh(used, names) && name != 0 && name !in used && name !in names
    ensures Fresh(used, names + [name])
  {
  }

  lemma ReservedAppend<T>(m: map<u32, T>, names: seq<u32>, name: u32, vacant: T)
    ensures Reserved(m, names + [name], vacant) == Reserved(m, names, vacant)[name := vacant]
  {
    assert forall k :: k in names + [name] <==> k in names || k == name;
  }

  /** `passed` consecutive candidates from `start` on, in a counter that wraps, were all in use. */
  ghost predicate AllUsed(start: u32, passed: nat, used: set<u32>) {
    forall j :: 0 <= j < passed ==> Add32(start, j) in used
  }

  /** Pigeonhole: fewer than 2^32 names cannot keep a wrapping counter on used names for ever. */
  lemma {:induction false} UsedRunFits(start: u32, passed: nat, used: set<u32>)
    requires AllUsed(start, passed, used) && passed <= WORD
    ensures passed <= |used|
  {
    if passed > 0 {
      var last := Add32(start, passed - 1);
      UsedRunFits(start, passed - 1, used - {last});
    }
  }

  lemma NoneUsed(start: u32, used: set<u32>)
    ensures AllUsed(start, 0, used) && Add32(start, 0) == start
  {
  }

  lemma OneMoreUsed(start: u32, passed: nat, used: set<u32>)
    requires AllUsed(start, passed, used) && passed < WORD && Add32(start, passed) in used
    requires |used| <= WORD
    ensures AllUsed(start, passed + 1, used) && passed + 1 <= |used|
    ensures Add32(Add32(start, passed), 1) == Add32(start, passed + 1)
  {
    UsedRunFits(start, passed + 1, used);
  }

  lemma PutSize<K, V>(m: map<K, V>, k: K, v: V)
    ensures |m[k := v]| == if k in m then |m| else |m| + 1
  {
    assert m[k := v].Keys == m.Keys + {k};
  }
}
