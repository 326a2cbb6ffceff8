/**
 * The host's side of vertex buffer records (guest/include/gl.h, lines
 * 136-150), replayed, and the slabs contents travel in
 * (guest/opengl/buffer.cpp, lines 132-145).
 */
module BufferHost {
  import opened Words

  type byte = b: int | 0 <= b < 256

  /**
   * BufferData carries its bytes or none for zeros; `admitted` is the host's
   * answer, false when a table or the resource budget is exhausted.
   */
  datatype Record =
    | BufferData(name: u32, size: nat, inline: bool, bytes: seq<byte>, admitted: bool)
    | SubData(name: u32, offset: nat, bytes: seq<byte>)
    | Deletes(names: seq<u32>)

  type Store = map<u32, seq<byte>>

  function Zeros(n: nat): seq<byte> {
    seq(n, _ => 0)
  }

  /** `bytes` stored over `whole` at `offset`. */
  function Patched(whole: seq<byte>, offset: nat, bytes: seq<byte>): (r: seq<byte>)
    requires offset + |bytes| <= |whole|
    ensures |r| == |whole|
  {
    whole[..offset] + bytes + whole[offset + |bytes|..]
  }

  function Apply(host: Store, r: Record): Store {
    match r
    case BufferData(name, size, inline, bytes, admitted) =>
      host[name := if !admitted then [] else if inline then bytes else Zeros(size)]
    case SubData(name, offset, bytes) =>
      if name in host && offset + |bytes| <= |host[name]| then host[name := Patched(host[name], offset, bytes)] else host
    case Deletes(names) =>
      host - set n | n in names
  }

  function Replay(records: seq<Record>): Store {
    if records == [] then map[] else Apply(Replay(records[..|records| - 1]), records[|records| - 1])
  }

  lemma ReplayOneMore(records: seq<Record>, r: Record)
    ensures Replay(records + [r]) == Apply(Replay(records), r)
  {
    assert (records + [r])[..|records|] == records;
  }

  function Held(host: Store, name: u32): seq<byte> {
    if name in host then host[name] else []
  }

  /** Two stretches stored one after the other are one. */
  lemma PatchedInParts(whole: seq<byte>, offset: nat, a: seq<byte>, b: seq<byte>)
    requires offset + |a| + |b| <= |whole|
    ensures Patched(Patched(whole, offset, a), offset + |a|, b) == Patched(whole, offset, a + b)
  {
  }

  /** What storing `bytes` at `offset` of an object does: nothing when the range is not there. */
  function Stored(host: Store, name: u32, offset: nat, bytes: seq<byte>): Store {
    if bytes == [] then host else Apply(host, SubData(name, offset, bytes))
  }

  lemma StoredInParts(host: Store, name: u32, offset: nat, a: seq<byte>, b: seq<byte>)
    requires offset + |a| + |b| <= |Held(host, name)| || Held(host, name) == []
    ensures Stored(Stored(host, name, offset, a), name, offset + |a|, b) == Stored(host, name, offset, a + b)
  {
    if a == [] {
      assert a + b == b;
    } else if b == [] {
      assert a + b == a;
    } else if Held(host, name) != [] {
      PatchedInParts(host[name], offset, a, b);
    }
  }

  lemma NoSlabs(host: Store, name: u32, offset: nat)
    ensures Stored(host, name, offset, []) == host
  {
  }

  lemma OneMoreSlab(host: Store, name: u32, offset: nat, bytes: seq<byte>, at: nat, n: nat)
    requires at + n <= |bytes| && n > 0 && (offset + |bytes| <= |Held(host, name)| || Held(host, name) == [])
    ensures Apply(Stored(host, name, offset, bytes[..at]), SubData(name, offset + at, bytes[at..at + n])) == Stored(host, name, offset, bytes[..at + n])
  {
    StoredInParts(host, name, offset, bytes[..at], bytes[at..at + n]);
    assert bytes[..at] + bytes[at..at + n] == bytes[..at + n];
  }

  /** From `from` on there are stores of at most one slab each, all but the last full. */
  ghost predicate Slabs(records: seq<Record>, from: nat, slab: nat) {
    forall i :: from <= i < |records| ==>
      records[i].SubData? && 0 < |records[i].bytes| <= slab && (i < |records| - 1 ==> |records[i].bytes| == slab)
  }

  /** SubmitContents: slabs of one packet each, which the host stores as the whole. */
  method SubmitContents(records: seq<Record>, name: u32, offset: nat, bytes: seq<byte>, slab: nat) returns (more: seq<Record>)
    requires slab > 0
    requires offset + |bytes| <= |Held(Replay(records), name)| || Held(Replay(records), name) == []
    ensures records <= more && Slabs(more, |records|, slab)
    ensures forall i :: |records| <= i < |more| ==> more[i].name == name
    ensures Replay(more) == Stored(Replay(records), name, offset, bytes)
  {
    hide Stored, Replay, Held, Apply;
    more := records;
    var at := 0;
    ghost var host := Replay(records);
    assert bytes[..at] == [];
    NoSlabs(host, name, offset);
    while at < |bytes|
      invariant at <= |bytes| && records <= more && Slabs(more, |records|, slab)
      invariant forall i :: |records| <= i < |more| ==> more[i].name == name
      invariant Replay(more) == Stored(host, name, offset, bytes[..at])
      invariant |more| > |records| && at < |bytes| ==> |more[|more| - 1].bytes| == slab
    {
      var n := if |bytes| - at < slab then |bytes| - at else slab;
      var part := bytes[at..at + n];
      ReplayOneMore(more, SubData(name, offset + at, part));
      OneMoreSlab(host, name, offset, bytes, at, n);
      more := more + [SubData(name, offset + at, part)];
      at := at + n;
    }
    assert bytes[..at] == bytes;
  }
}
