/**
 * The bounded table of values the host reported (guest/opengl/occlusion.cpp,
 * lines 59-103): swap-removal, replacement in turn when full.
 */
module SettledTable {
  import opened Words

  /** The first n pairs, as a map. */
  ghost function Pairs(names: seq<u32>, values: seq<u32>, n: nat): map<u32, u32>
    requires n <= |names| == |values|
  {
    if n == 0 then map[] else Pairs(names, values, n - 1)[names[n - 1] := values[n - 1]]
  }

  ghost predicate Distinct(names: seq<u32>, n: nat)
    requires n <= |names|
  {
    (forall i :: 0 <= i < n ==> names[i] != 0) && (forall i, j :: 0 <= i < j < n ==> names[i] != names[j])
  }

  lemma {:induction false} PairsDomain(names: seq<u32>, values: seq<u32>, n: nat)
    requires n <= |names| == |values|
    ensures forall k :: k in Pairs(names, values, n) <==> exists i :: 0 <= i < n && names[i] == k
    ensures Distinct(names, n) ==> forall i :: 0 <= i < n ==> names[i] in Pairs(names, values, n) && Pairs(names, values, n)[names[i]] == values[i]
  {
    if n > 0 {
      PairsDomain(names, values, n - 1);
      var m := Pairs(names, values, n - 1);
      forall k
        ensures k in Pairs(names, values, n) <==> exists i :: 0 <= i < n && names[i] == k
      {
        if k in m {
          var i :| 0 <= i < n - 1 && names[i] == k;
        }
      }
    }
  }

  /** Only the first n pairs matter. */
  lemma {:induction false} PairsPrefix(names: seq<u32>, values: seq<u32>, names2: seq<u32>, values2: seq<u32>, n: nat)
    requires n <= |names| == |values| && n <= |names2| == |values2|
    requires forall i :: 0 <= i < n ==> names[i] == names2[i] && values[i] == values2[i]
    ensures Pairs(names, values, n) == Pairs(names2, values2, n)
  {
    if n > 0 {
      PairsPrefix(names, values, names2, values2, n - 1);
    }
  }

  lemma {:induction false} PairsSize(names: seq<u32>, values: seq<u32>, n: nat)
    requires n <= |names| == |values| && Distinct(names, n)
    ensures |Pairs(names, values, n)| == n
  {
    if n > 0 {
      PairsSize(names, values, n - 1);
      PairsDomain(names, values, n - 1);
      var m := Pairs(names, values, n - 1);
      assert m[names[n - 1] := values[n - 1]].Keys == m.Keys + {names[n - 1]};
    }
  }

  lemma HasPair(names: seq<u32>, values: seq<u32>, n: nat, i: nat)
    requires i < n <= |names| == |values| && Distinct(names, n)
    ensures names[i] in Pairs(names, values, n) && Pairs(names, values, n)[names[i]] == values[i]
  {
    hide Distinct;
    PairsDomain(names, values, n);
  }

  lemma PairIndex(names: seq<u32>, values: seq<u32>, n: nat, k: u32) returns (i: nat)
    requires n <= |names| == |values| && Distinct(names, n) && k in Pairs(names, values, n)
    ensures i < n && names[i] == k && Pairs(names, values, n)[k] == values[i]
  {
    PairsDomain(names, values, n);
    i :| 0 <= i < n && names[i] == k;
  }

  lemma SameMaps(m: map<u32, u32>, m2: map<u32, u32>)
    requires forall k :: k in m ==> k in m2 && m2[k] == m[k]
    requires forall k :: k in m2 ==> k in m
    ensures m == m2
  {
  }

  /** A pair stored over another one, or over its own name. */
  lemma PairReplaced(names: seq<u32>, values: seq<u32>, n: nat, at: nat, name: u32, value: u32)
    requires at < n <= |names| == |values| && Distinct(names, n) && name != 0
    requires forall i :: 0 <= i < n && i != at ==> names[i] != name
    ensures Distinct(names[at := name], n)
    ensures Pairs(names[at := name], values[at := value], n) == (Pairs(names, values, n) - {names[at]})[name := value]
  {
    var names2, values2 := names[at := name], values[at := value];
    assert Distinct(names2, n);
    hide Pairs;
    var m, m2 := Pairs(names, values, n), Pairs(names2, values2, n);
    var goal := (m - {names[at]})[name := value];
    forall k | k in m2
      ensures k in goal
    {
      var i := PairIndex(names2, values2, n, k);
      HasPair(names, values, n, i);
    }
    forall k | k in goal
      ensures k in m2 && m2[k] == goal[k]
    {
      var i := at;
      if k != name {
        i := PairIndex(names, values, n, k);
      }
      HasPair(names2, values2, n, i);
    }
    SameMaps(goal, m2);
  }

  /** The last pair takes the place of the removed one. */
  lemma PairRemoved(names: seq<u32>, values: seq<u32>, n: nat, at: nat)
    requires at < n <= |names| == |values| && Distinct(names, n)
    ensures Distinct(names[at := names[n - 1]], n - 1)
    ensures Pairs(names[at := names[n - 1]], values[at := values[n - 1]], n - 1) == Pairs(names, values, n) - {names[at]}
  {
    var names2, values2 := names[at := names[n - 1]], values[at := values[n - 1]];
    assert Distinct(names2, n - 1);
    hide Pairs;
    var m, m2 := Pairs(names, values, n), Pairs(names2, values2, n - 1);
    forall k | k in m2
      ensures k in m - {names[at]}
    {
      var i := PairIndex(names2, values2, n - 1, k);
      HasPair(names, values, n, if i == at then n - 1 else i);
    }
    forall k | k in m - {names[at]}
      ensures k in m2 && m2[k] == m[k]
    {
      var i := PairIndex(names, values, n, k);
      HasPair(names2, values2, n - 1, if i == n - 1 then at else i);
    }
    SameMaps(m - {names[at]}, m2);
  }

  lemma PairAdded(names: seq<u32>, values: seq<u32>, n: nat, name: u32, value: u32)
    requires n < |names| == |values| && Distinct(names, n) && name != 0
    requires forall i :: 0 <= i < n ==> names[i] != name
    ensures Distinct(names[n := name], n + 1)
    ensures Pairs(names[n := name], values[n := value], n + 1) == (Pairs(names, values, n) - {name})[name := value]
  {
    var names2, values2 := names[n := name], values[n := value];
    PairsPrefix(names, values, names2, values2, n);
    PairsDomain(names, values, n);
    assert Pairs(names, values, n) - {name} == Pairs(names, values, n);
  }

  class Settled {
    const Names: array<u32>
    const Values: array<u32>
    var Count: nat
    var Next: nat

    ghost predicate Valid()
      reads this, Names, Values
    {
      && Names.Length == Values.Length > 0 && Names != Values && Count <= Names.Length && Next < Names.Length
      && Distinct(Names[..], Count)
    }

    ghost function Map(): map<u32, u32>
      requires Valid()
      reads this, Names, Values
    {
      Pairs(Names[..], Values[..], Count)
    }

    constructor (slots: nat)
      requires slots > 0
      ensures Valid() && Map() == map[] && fresh(Names) && fresh(Values) && Names.Length == slots
    {
      Names := new u32[slots](_ => 0);
      Values := new u32[slots](_ => 0);
      Count, Next := 0, 0;
    }

    lemma NotThere(name: u32)
      requires Valid() && (name == 0 || forall i :: 0 <= i < Count ==> Names[i] != name)
      ensures name !in Map()
    {
      PairsDomain(Names[..], Values[..], Count);
    }

    lemma There(i: nat)
      requires Valid() && i < Count
      ensures Names[i] in Map() && Map()[Names[i]] == Values[i]
    {
      HasPair(Names[..], Values[..], Count, i);
    }

    /** SettledFind. */
    method Find(name: u32) returns (found: bool, value: u32)
      requires Valid()
      ensures found <==> name in Map()
      ensures found ==> value == Map()[name]
    {
      hide Pairs;
      if name == 0 {
        NotThere(name);
        return false, 0;
      }
      var i := 0;
      while i < Count
        invariant i <= Count && forall j :: 0 <= j < i ==> Names[j] != name
      {
        if Names[i] == name {
          There(i);
          return true, Values[i];
        }
        i := i + 1;
      }
      NotThere(name);
      return false, 0;
    }

    /** SettledForget. */
    method Forget(name: u32)
      requires Valid()
      modifies this`Count, Names, Values
      ensures Valid() && Map() == old(Map()) - {name}
    {
      hide Pairs;
      var i := 0;
      while i < Count && name != 0
        invariant i <= Count && forall j :: 0 <= j < i ==> Names[j] != name
      {
        if Names[i] == name {
          ghost var names, values := Names[..], Values[..];
          PairRemoved(names, values, Count, i);
          Count := Count - 1;
          Names[i] := Names[Count];
          Values[i] := Values[Count];
          assert Names[..] == names[i := names[Count]] && Values[..] == values[i := values[Count]];
          return;
        }
        i := i + 1;
      }
      NotThere(name);
      assert Map() == Map() - {name};
    }

    /** SettledKeep: without a free entry the victims rotate; `victim` is the name that went, if any. */
    method Keep(name: u32, value: u32) returns (ghost victim: u32)
      requires Valid()
      modifies this, Names, Values
      ensures Valid()
      ensures name == 0 ==> Map() == old(Map())
      ensures name != 0 ==> Map() == (old(Map()) - {victim})[name := value]
      ensures name in old(Map()) || old(Count) < Names.Length ==> victim == name
      ensures Count == old(Count) + if name != 0 && name !in old(Map()) && old(Count) < Names.Length then 1 else 0
      ensures name != 0 && name !in old(Map()) && old(Count) == Names.Length ==> victim == old(Names[Next]) && Next == (old(Next) + 1) % Names.Length
    {
      victim := name;
      if name == 0 {
        return;
      }
      hide Pairs;
      var at := 0;
      while at < Count && Names[at] != name
        invariant at <= Count && forall j :: 0 <= j < at ==> Names[j] != name
      {
        at := at + 1;
      }
      ghost var names, values, n := Names[..], Values[..], Count;
      if at < Count {
        There(at);
      } else {
        NotThere(name);
      }
      if at == Count {
        if Count < Names.Length {
          PairAdded(names, values, n, name, value);
          Count := Count + 1;
        } else {
          at := Next;
          victim := Names[at];
          Next := (Next + 1) % Names.Length;
        }
      }
      if at < n {
        PairReplaced(names, values, n, at, name, value);
      }
      Names[at] := name;
      Values[at] := value;
      assert Names[..] == names[at := name] && Values[..] == values[at := value];
    }

    /** ListEffects: nothing reported is kept. */
    method Clear()
      requires Valid()
      modifies this`Count
      ensures Valid() && Map() == map[]
    {
      Count := 0;
    }
  }
}
