/**
 * Buffer objects and their frontend copies (guest/opengl/buffer.cpp): one
 * share group, one record stream. A binding is a name and the serial of the
 * object it latched (guest/opengl/buffers.h, lines 37-44).
 */
module BufferMirror {
  import opened Words
  import opened ProbeTable
  import opened BufferHost
  import opened DataRecord

  datatype Option<T> = None | Some(value: T)
  datatype Access = ReadOnly | WriteOnly | ReadWrite
  datatype Memory = Nothing | ObjectOnly | Enough
  datatype Target = ArrayBuffer | ElementArrayBuffer
  datatype Error = NoError | InvalidValue | InvalidOperation | OutOfMemory

  /**
   * `born` counts the serials drawn up to its own; `admitted` is the
   * host's answer to its last BufferData. Neither is the frontend's to read.
   */
  datatype Buffer = Buffer(serial: u32, born: nat, data: seq<byte>, mapped: bool, access: Access, admitted: bool)

  /** What a target has bound; name 0 is nothing. */
  datatype Binding = Binding(name: u32, serial: u32, born: nat)

  type Objects = map<u32, Option<Buffer>>

  predicate WriteMapped(b: Buffer) {
    b.mapped && b.access != ReadOnly
  }

  /** The copy is the host's store, but for what a write mapping may have changed; a refused store is empty. */
  predicate Mirrors(b: Buffer, held: seq<byte>) {
    if !b.admitted then held == [] else |held| == |b.data| && (!WriteMapped(b) ==> held == b.data)
  }

  function Copy(m: Objects, name: u32): Option<Buffer> {
    if name in m then m[name] else None
  }

  /** Every object mirrors the host's; the host has no others, but for `doomed` names whose Deletes is still to come. */
  ghost predicate Mirrored(m: Objects, host: Store, doomed: seq<u32>) {
    && (forall name :: Copy(m, name).Some? && name !in doomed ==> Mirrors(m[name].value, Held(host, name)))
    && (forall name :: Copy(m, name).None? && name !in doomed ==> name !in host)
    && (forall name :: name in doomed ==> Copy(m, name).None?)
  }

  // ---- Serials ----

  /** The n-th serial drawn: the counter wraps past zero. */
  function SerialOf(n: nat): u32 {
    if n == 0 then 0 else (n - 1) % (WORD - 1) + 1
  }

  function NextSerial(serial: u32): u32 {
    if Add32(serial, 1) != 0 then Add32(serial, 1) else 1
  }

  lemma SerialFollows(n: nat)
    ensures NextSerial(SerialOf(n)) == SerialOf(n + 1)
  {
    if n > 0 {
      ModStep(n - 1, WORD - 1);
    }
  }

  lemma ModStep(x: nat, m: nat)
    requires m > 1
    ensures (x + 1) % m == if x % m + 1 == m then 0 else x % m + 1
  {
    var q := x / m;
    assert x == q * m + x % m;
    if x % m + 1 == m {
      assert (q + 1) * m == q * m + m;
      ModUnique(x + 1, q + 1, 0, m);
    } else {
      ModUnique(x + 1, q, x % m + 1, m);
    }
  }

  /** Two draws give the same serial exactly when they are a whole wrap apart. */
  lemma SameSerialIff(a: nat, b: nat)
    requires 0 < a <= b
    ensures SerialOf(a) == SerialOf(b) <==> (b - a) % (WORD - 1) == 0
  {
    ModDifference(a - 1, b - 1, WORD - 1);
  }

  lemma ModDifference(a: nat, b: nat, m: nat)
    requires a <= b && m > 0
    ensures a % m == b % m <==> (b - a) % m == 0
  {
    var p, q, r := a / m, b / m, (b - a) / m;
    assert a == p * m + a % m && b == q * m + b % m && b - a == r * m + (b - a) % m;
    if a % m == b % m {
      assert (q - p) * m == q * m - p * m;
      ModUnique(b - a, q - p, 0, m);
    }
    if (b - a) % m == 0 {
      assert (r + p) * m == r * m + p * m;
      ModUnique(b, r + p, a % m, m);
    }
  }

  // ---- Bindings ----

  /** JglBufferObject: the object a binding latched, or none once that object is gone. */
  function Resolve(m: Objects, at: Binding): Option<Buffer> {
    if at.name != 0 && Copy(m, at.name).Some? && m[at.name].value.serial == at.serial then m[at.name] else None
  }

  ghost predicate BornAt(serial: u32, born: nat, limit: nat) {
    0 < born <= limit && serial == SerialOf(born)
  }

  /** A binding latched an object of its name; whatever has that name now is no older. */
  ghost predicate Latched(m: Objects, at: Binding, born: nat) {
    at.name != 0 ==> BornAt(at.serial, at.born, born) && (Copy(m, at.name).Some? ==> at.born <= m[at.name].value.born)
  }

  ghost predicate AllLatched(m: Objects, bound: seq<Binding>, born: nat) {
    forall i :: 0 <= i < |bound| ==> Latched(m, bound[i], born)
  }

  ghost predicate Numbered(m: Objects, born: nat) {
    forall name :: Copy(m, name).Some? ==> BornAt(m[name].value.serial, m[name].value.born, born)
  }

  /** A binding resolves exactly when its name's object is a whole number of serial wraps younger than the one it latched. */
  lemma ResolvesIff(m: Objects, at: Binding, born: nat)
    requires Numbered(m, born) && Latched(m, at, born) && at.name != 0 && Copy(m, at.name).Some?
    ensures Resolve(m, at).Some? <==> (m[at.name].value.born - at.born) % (WORD - 1) == 0
  {
    SameSerialIff(at.born, m[at.name].value.born);
  }

  /** Before 2^32 - 1 further serials a binding never resolves to another object. */
  lemma ResolvesToItsOwn(m: Objects, at: Binding, born: nat)
    requires Numbered(m, born) && Latched(m, at, born) && Resolve(m, at).Some? && born - at.born < WORD - 1
    ensures Resolve(m, at).value.born == at.born
  {
    ResolvesIff(m, at, born);
  }

  // ---- The mirror ----

  ghost predicate OnlyAt(host: Store, host2: Store, name: u32) {
    forall n :: n != name ==> (n in host <==> n in host2) && Held(host, n) == Held(host2, n)
  }

  lemma ObjectMirrors(m: Objects, host: Store, host2: Store, name: u32, b: Buffer)
    requires Mirrored(m, host, []) && OnlyAt(host, host2, name) && Mirrors(b, Held(host2, name))
    ensures Mirrored(m[name := Some(b)], host2, [])
  {
    var m2 := m[name := Some(b)];
    forall n | Copy(m2, n).Some?
      ensures Mirrors(m2[n].value, Held(host2, n))
    {
      assert n != name ==> Copy(m, n) == Copy(m2, n);
    }
    forall n | Copy(m2, n).None?
      ensures n !in host2
    {
      assert Copy(m, n) == Copy(m2, n);
    }
  }

  lemma OneObject(m: Objects, host: Store, name: u32)
    requires Mirrored(m, host, []) && Copy(m, name).Some?
    ensures Mirrors(m[name].value, Held(host, name))
  {
  }

  lemma ApplyOnlyAt(host: Store, r: Record)
    requires !r.Deletes?
    ensures OnlyAt(host, Apply(host, r), r.name)
  {
  }

  lemma OnlyAtTwice(host: Store, host1: Store, host2: Store, name: u32)
    requires OnlyAt(host, host1, name) && OnlyAt(host1, host2, name)
    ensures OnlyAt(host, host2, name)
  {
  }

  /** Storing over the copy and over the host's store keeps them equal; a refused store stays empty. */
  lemma StoredMirrors(host: Store, name: u32, b: Buffer, offset: nat, bytes: seq<byte>)
    requires offset + |bytes| <= |b.data|
    requires Mirrors(b, Held(host, name))
    ensures OnlyAt(host, Stored(host, name, offset, bytes), name)
    ensures var h := Held(Stored(host, name, offset, bytes), name);
            && (!WriteMapped(b) ==> Mirrors(b.(data := Patched(b.data, offset, bytes)), h))
            && (offset == 0 && bytes == b.data ==> Mirrors(b.(mapped := false), h))
  {
    assert Patched(b.data, offset, []) == b.data;
    if bytes != [] {
      ApplyOnlyAt(host, SubData(name, offset, bytes));
    }
  }

  /** A new store, filled in its record or zero and then in slabs. */
  lemma NewStoreMirrors(host: Store, name: u32, b: Buffer, inline: bool, filled: bool, admitted: bool)
    requires !b.mapped && b.admitted == admitted && (inline ==> filled) && (!filled ==> b.data == Zeros(|b.data|))
    ensures var host1 := Apply(host, BufferData(name, |b.data|, inline, if inline then b.data else [], admitted));
            var host2 := if filled && !inline then Stored(host1, name, 0, b.data) else host1;
            && OnlyAt(host, host2, name) && Mirrors(b, Held(host2, name))
            && (|b.data| <= |Held(host1, name)| || Held(host1, name) == [])
  {
    var host1 := Apply(host, BufferData(name, |b.data|, inline, if inline then b.data else [], admitted));
    ApplyOnlyAt(host, BufferData(name, |b.data|, inline, if inline then b.data else [], admitted));
    if filled && !inline && b.data != [] {
      ApplyOnlyAt(host1, SubData(name, 0, b.data));
      OnlyAtTwice(host, host1, Apply(host1, SubData(name, 0, b.data)), name);
      if admitted {
        assert Patched(Zeros(|b.data|), 0, b.data) == b.data;
      }
    }
  }

  lemma NewObjectMirrors(m: Objects, host: Store, name: u32, b: Buffer)
    requires Mirrored(m, host, []) && Copy(m, name).None? && b.data == [] && b.admitted
    ensures Mirrored(m[name := Some(b)], host, [])
  {
    ObjectMirrors(m, host, host, name, b);
  }

  lemma ReservedMirrors(m: Objects, m2: Objects, host: Store)
    requires Mirrored(m, host, []) && forall name :: Copy(m2, name) == Copy(m, name)
    ensures Mirrored(m2, host, [])
  {
  }

  /** A name leaves the table; its object stays on the host until the batch goes out. */
  lemma RemovedMirrors(m: Objects, host: Store, doomed: seq<u32>, name: u32)
    requires Mirrored(m, host, doomed)
    ensures Mirrored(m - {name}, host, if Copy(m, name).Some? then doomed + [name] else doomed)
  {
    var m2 := m - {name};
    forall n
      ensures Copy(m2, n) == if n == name then None else Copy(m, n)
    {
    }
  }

  lemma DeletedMirrors(m: Objects, host: Store, doomed: seq<u32>)
    requires Mirrored(m, host, doomed)
    ensures Mirrored(m, Apply(host, Deletes(doomed)), [])
  {
    var host2 := Apply(host, Deletes(doomed));
    forall n
      ensures n in host2 <==> n in host && n !in doomed
      ensures n !in doomed ==> Held(host2, n) == Held(host, n)
    {
    }
  }

  // ---- The share group's objects; one context's bindings and what its arrays latched ----

  ghost predicate State(m: Objects, host: Store, born: nat, bound: seq<Binding>) {
    Mirrored(m, host, []) && Numbered(m, born) && AllLatched(m, bound, born)
  }

  /** The same object with other contents. */
  lemma RewriteKeeps(m: Objects, host: Store, host2: Store, born: nat, bound: seq<Binding>, name: u32, b: Buffer)
    requires State(m, host, born, bound) && Copy(m, name).Some? && OnlyAt(host, host2, name) && Mirrors(b, Held(host2, name))
    requires b.born == m[name].value.born && b.serial == m[name].value.serial
    ensures State(m[name := Some(b)], host2, born, bound)
  {
    hide Mirrors, OnlyAt, Held;
    ObjectMirrors(m, host, host2, name, b);
    assert forall n :: Copy(m[name := Some(b)], n) == if n == name then Some(b) else Copy(m, n);
  }

  lemma SerialDrawn(m: Objects, host: Store, born: nat, bound: seq<Binding>)
    requires State(m, host, born, bound)
    ensures State(m, host, born + 1, bound)
  {
    hide Mirrors, Held, SerialOf;
  }

  /** A first bind: a new object, no younger than any binding. */
  lemma CreateKeeps(m: Objects, host: Store, born: nat, bound: seq<Binding>, name: u32, b: Buffer)
    requires State(m, host, born, bound) && Copy(m, name).None? && b.data == [] && b.admitted
    requires b.born == born > 0 && b.serial == SerialOf(born)
    ensures State(m[name := Some(b)], host, born, bound)
  {
    hide Mirrors, Held, SerialOf;
    NewObjectMirrors(m, host, name, b);
    assert forall n :: Copy(m[name := Some(b)], n) == if n == name then Some(b) else Copy(m, n);
  }

  lemma BindKeeps(m: Objects, host: Store, born: nat, bound: seq<Binding>, name: u32)
    requires State(m, host, born, bound) && Copy(m, name).Some?
    ensures var b := m[name].value; Latched(m, Binding(name, b.serial, b.born), born)
  {
  }

  lemma ReserveKeeps(m: Objects, names: seq<u32>, host: Store, born: nat, bound: seq<Binding>)
    requires State(m, host, born, bound) && Fresh(m.Keys, names)
    ensures State(Reserved(m, names, None), host, born, bound)
  {
    hide Mirrors, SerialOf;
    var m2 := Reserved(m, names, None);
    forall n
      ensures Copy(m2, n) == Copy(m, n)
    {
    }
    ReservedMirrors(m, m2, host);
  }

  lemma UnbindKeeps(m: Objects, host: Store, born: nat, bound: seq<Binding>)
    requires State(m, host, born, bound)
    ensures Latched(m, Binding(0, 0, 0), born)
  {
  }

  lemma MirroredLength(b: Buffer, held: seq<byte>)
    requires Mirrors(b, held)
    ensures |held| == |b.data| || held == []
  {
  }

  lemma NothingStored(host: Store, name: u32)
    ensures OnlyAt(host, host, name)
  {
  }

  lemma UnmapReadOnly(b: Buffer, held: seq<byte>)
    requires Mirrors(b, held) && b.access == ReadOnly
    ensures Mirrors(b.(mapped := false), held)
  {
  }

  /** JglForgetBuffer: a binding of the deleted object binds nothing. */
  function Reverted(at: Binding, name: u32, was: Option<Buffer>): Binding {
    if was.Some? && at.name == name && at.serial == was.value.serial then Binding(0, 0, 0) else at
  }

  function Survivors(m: Objects, bound: seq<Binding>, names: seq<u32>): seq<Binding> {
    seq(|bound|, i requires 0 <= i < |bound| => Surviving(m, bound[i], names))
  }

  /** What is left of a binding once `names` are deleted: nothing when it resolved to one of their objects. */
  function Surviving(m: Objects, at: Binding, names: seq<u32>): Binding {
    if at.name in names && Resolve(m, at).Some? then Binding(0, 0, 0) else at
  }

  lemma NoneDeleted(m: Objects, bound: seq<Binding>)
    ensures Survivors(m, bound, []) == bound
  {
  }

  lemma RevertedLatched(m: Objects, at: Binding, name: u32, was: Option<Buffer>, born: nat)
    requires Latched(m, at, born)
    ensures Latched(m - {name}, Reverted(at, name, was), born)
  {
  }

  lemma OneMoreReverted(m: Objects, at: Binding, names: seq<u32>, name: u32, was: Option<Buffer>)
    requires was == if name == 0 then None else Copy(m - (set n | n in names), name)
    ensures Surviving(m, at, names + [name]) == Reverted(Surviving(m, at, names), name, was)
  {
    assert was.Some? ==> name !in names && Copy(m, name) == was;
    assert name !in names && name != 0 ==> was == Copy(m, name);
  }

  lemma OneMoreDeleted(m: Objects, bound: seq<Binding>, bound1: seq<Binding>, bound2: seq<Binding>, names: seq<u32>, name: u32, was: Option<Buffer>)
    requires was == if name == 0 then None else Copy(m - (set n | n in names), name)
    requires bound1 == Survivors(m, bound, names) && AllReverted(bound1, bound2, name, was)
    ensures bound2 == Survivors(m, bound, names + [name])
  {
    hide Surviving, Reverted;
    forall i | 0 <= i < |bound|
      ensures bound2[i] == Surviving(m, bound[i], names + [name])
    {
      OneMoreReverted(m, bound[i], names, name, was);
    }
  }

  ghost predicate AllReverted(bound: seq<Binding>, bound2: seq<Binding>, name: u32, was: Option<Buffer>) {
    |bound2| == |bound| && forall i :: 0 <= i < |bound| ==> bound2[i] == Reverted(bound[i], name, was)
  }

  lemma AllRevertedLatched(m: Objects, bound: seq<Binding>, bound2: seq<Binding>, name: u32, was: Option<Buffer>, born: nat)
    requires AllLatched(m, bound, born) && AllReverted(bound, bound2, name, was)
    ensures AllLatched(m - {name}, bound2, born)
  {
    hide Latched, Reverted;
    forall i | 0 <= i < |bound2|
      ensures Latched(m - {name}, bound2[i], born)
    {
      RevertedLatched(m, bound[i], name, was, born);
    }
  }

  lemma AlreadyGone(m: Objects, bound: seq<Binding>, name: u32)
    requires name !in m
    ensures m - {name} == m && AllReverted(bound, bound, name, None)
  {
  }

  lemma OneMoreRemoved(m: Objects, names: seq<u32>, name: u32)
    ensures m - (set n | n in names) - {name} == m - (set n | n in names + [name])
  {
  }

  datatype Call =
    | Gen(count: u32)
    | Bind(target: Target, name: u32, memory: Memory)
    | Delete(buffers: seq<u32>)
    | Data(target: Target, bytes: seq<byte>, hasMemory: bool, admitted: bool)
    | Zero(target: Target, size: int, hasMemory: bool, admitted: bool)
    | Part(target: Target, offset: int, bytes: seq<byte>)
    | Map(target: Target, access: Access)
    | Write(target: Target, at: nat, value: byte)
    | Unmap(target: Target)
    | Pointer(slot: nat)

  /** The host refuses no store of this call. */
  predicate Accepts(call: Call) {
    call.Data? || call.Zero? ==> call.admitted
  }

  ghost predicate AllAdmitted(m: Objects) {
    forall name :: Copy(m, name).Some? ==> m[name].value.admitted
  }

  /** Byte for byte, for every object that is not mapped for writing. */
  ghost predicate CopiesEqual(m: Objects, host: Store) {
    forall name :: Copy(m, name).Some? && !WriteMapped(m[name].value) ==> Held(host, name) == m[name].value.data
  }

  /** What a copy says of the host, exactly: a refused store differs unless it is empty. */
  lemma CopyIsHostIff(b: Buffer, held: seq<byte>)
    requires Mirrors(b, held) && !WriteMapped(b)
    ensures held == b.data <==> b.admitted || b.data == []
  {
  }

  ghost predicate CopiesAreTheHosts(m: Objects, host: Store) {
    && (forall name :: Copy(m, name).Some? && !WriteMapped(m[name].value) ==>
          (Held(host, name) == m[name].value.data <==> m[name].value.admitted || m[name].value.data == []))
    && (forall name :: name in host ==> Copy(m, name).Some?)
  }

  ghost predicate BindingsResolve(m: Objects, bound: seq<Binding>, born: nat) {
    forall i :: 0 <= i < |bound| && Resolve(m, bound[i]).Some? && born - bound[i].born < WORD - 1 ==>
      Resolve(m, bound[i]).value.born == bound[i].born
  }

  lemma StateMeans(m: Objects, host: Store, born: nat, bound: seq<Binding>)
    requires State(m, host, born, bound)
    ensures CopiesAreTheHosts(m, host) && (AllAdmitted(m) ==> CopiesEqual(m, host)) && BindingsResolve(m, bound, born)
  {
    hide SerialOf, Mirrors, WriteMapped;
    forall name | Copy(m, name).Some? && !WriteMapped(m[name].value)
      ensures Held(host, name) == m[name].value.data <==> m[name].value.admitted || m[name].value.data == []
    {
      CopyIsHostIff(m[name].value, Held(host, name));
    }
    forall i | 0 <= i < |bound| && Resolve(m, bound[i]).Some? && born - bound[i].born < WORD - 1
      ensures Resolve(m, bound[i]).value.born == bound[i].born
    {
      assert Latched(m, bound[i], born);
      ResolvesToItsOwn(m, bound[i], born);
    }
  }

  // ---- The records of a call ----

  /** New storage: one record when the contents fit in it, else zeros first, then the contents in slabs. */
  ghost predicate StoreSent(before: seq<Record>, after: seq<Record>, name: u32, contents: seq<byte>, filled: bool, admitted: bool, maxWords: nat) {
    if filled && RecordWords(3, |contents|) <= maxWords then after == before + [BufferData(name, |contents|, true, contents, admitted)]
    else
      && |before| < |after| && after[|before|] == BufferData(name, |contents|, false, [], admitted)
      && PartSent(before + [after[|before|]], after, name, maxWords) && (!filled ==> |after| == |before| + 1)
  }

  /** A range: stores of the object in slabs, each as large as a packet allows. */
  ghost predicate PartSent(before: seq<Record>, after: seq<Record>, name: u32, maxWords: nat) {
    && before <= after && Slabs(after, |before|, MaxDataBytes(2, maxWords))
    && forall i :: |before| <= i < |after| ==> after[i].name == name
  }

  ghost function Deleted(records: seq<Record>): seq<u32> {
    if records == [] then []
    else Deleted(records[..|records| - 1]) + if records[|records| - 1].Deletes? then records[|records| - 1].names else []
  }

  ghost predicate Batches(records: seq<Record>, limit: nat, full: bool) {
    forall i :: 0 <= i < |records| ==>
      records[i].Deletes? && 0 < |records[i].names| <= limit && (full || i < |records| - 1 ==> |records[i].names| == limit)
  }

  /** The names of a list that have objects, each once, in order. */
  ghost function Existing(m: Objects, names: seq<u32>): seq<u32> {
    if names == [] then []
    else
      var front, last := names[..|names| - 1], names[|names| - 1];
      Existing(m, front) + if last != 0 && last !in front && Copy(m, last).Some? then [last] else []
  }

  ghost predicate DeletesSent(before: seq<Record>, after: seq<Record>, m: Objects, names: seq<u32>, maxWords: nat) {
    && before <= after && Deleted(after[|before|..]) == Existing(m, names)
    && exists limit: nat :: IsBatch(limit, maxWords) && Batches(after[|before|..], limit, false)
  }

  lemma OneMoreBatch(records: seq<Record>, limit: nat, names: seq<u32>, full: bool)
    requires Batches(records, limit, true) && 0 < |names| <= limit && (full ==> |names| == limit)
    ensures Batches(records + [Deletes(names)], limit, full) && Deleted(records + [Deletes(names)]) == Deleted(records) + names
  {
    assert (records + [Deletes(names)])[..|records|] == records;
  }

  lemma OneMoreExisting(m: Objects, names: seq<u32>, name: u32)
    ensures Existing(m, names + [name]) == Existing(m, names) + if name != 0 && name !in names && Copy(m, name).Some? then [name] else []
  {
    assert (names + [name])[..|names|] == names;
  }

  /** While a list is deleted: full batches have gone, the names since then wait. */
  ghost predicate Sending(before: seq<Record>, now: seq<Record>, m: Objects, done: seq<u32>, pending: seq<u32>, limit: nat) {
    && before <= now && Batches(now[|before|..], limit, true) && Deleted(now[|before|..]) + pending == Existing(m, done)
  }

  lemma SendingStarts(before: seq<Record>, m: Objects, limit: nat)
    ensures Sending(before, before, m, [], [], limit)
  {
  }

  lemma SendingNext(before: seq<Record>, was: seq<Record>, now: seq<Record>, m: Objects, left: Objects, done: seq<u32>, name: u32,
                    pending: seq<u32>, pending2: seq<u32>, limit: nat)
    requires Sending(before, was, m, done, pending, limit) && |pending| < limit && left == m - (set n | n in done)
    requires Copy(left, name).None? || name == 0 ==> now == was && pending2 == pending
    requires Copy(left, name).Some? && name != 0 ==>
               if |pending| + 1 == limit then now == was + [Deletes(pending + [name])] && pending2 == [] else now == was && pending2 == pending + [name]
    ensures Sending(before, now, m, done + [name], pending2, limit)
  {
    hide Batches, Deleted, Existing;
    OneMoreExisting(m, done, name);
    assert Copy(left, name) == if name in done then None else Copy(m, name);
    if Copy(left, name).Some? && name != 0 && |pending| + 1 == limit {
      assert now[|before|..] == was[|before|..] + [Deletes(pending + [name])];
      OneMoreBatch(was[|before|..], limit, pending + [name], true);
    }
  }

  lemma SendingEnds(before: seq<Record>, was: seq<Record>, now: seq<Record>, m: Objects, done: seq<u32>, pending: seq<u32>, limit: nat, maxWords: nat)
    requires Sending(before, was, m, done, pending, limit) && |pending| < limit && IsBatch(limit, maxWords)
    requires now == was + if pending == [] then [] else [Deletes(pending)]
    ensures DeletesSent(before, now, m, done, maxWords)
  {
    hide Deleted, Existing, IsBatch;
    if pending != [] {
      assert now[|before|..] == was[|before|..] + [Deletes(pending)];
      OneMoreBatch(was[|before|..], limit, pending, false);
    } else {
      assert now[|before|..] == was[|before|..] && Deleted(was[|before|..]) + [] == Deleted(was[|before|..]);
    }
  }

  // ---- What a run of calls does ----

  datatype Snapshot = Snapshot(objects: Objects, bound: seq<Binding>, records: seq<Record>, born: nat)

  function SlotFor(target: Target): nat {
    match target case ArrayBuffer => 0 case ElementArrayBuffer => 1
  }

  /** What a target binds. */
  function At(a: Snapshot, target: Target): Option<Buffer>
    requires |a.bound| >= 2
  {
    Resolve(a.objects, a.bound[SlotFor(target)])
  }

  function NameAt(a: Snapshot, target: Target): u32
    requires |a.bound| >= 2
  {
    a.bound[SlotFor(target)].name
  }

  /** The object at a target takes another value. */
  function Rewritten(a: Snapshot, target: Target, b: Buffer): Objects
    requires |a.bound| >= 2
  {
    a.objects[NameAt(a, target) := Some(b)]
  }

  ghost predicate Reserves(a: Snapshot, count: u32, b: Snapshot, limit: nat) {
    && b == a.(objects := b.objects)
    && if count > limit - |a.objects| then b.objects == a.objects
       else exists names :: |names| == count && Fresh(a.objects.Keys, names) && b.objects == Reserved(a.objects, names, None)
  }

  ghost predicate Binds(a: Snapshot, target: Target, name: u32, memory: Memory, b: Snapshot, limit: nat)
    requires |a.bound| >= 2
  {
    var creates := name != 0 && Copy(a.objects, name).None? && (name in a.objects || |a.objects| < limit);
    && b.records == a.records && b.born == a.born + (if creates && memory != Nothing then 1 else 0)
    && b.objects == (if creates && memory == Enough
                     then a.objects[name := Some(Buffer(SerialOf(a.born + 1), a.born + 1, [], false, ReadWrite, true))] else a.objects)
    && b.bound == if name == 0 then a.bound[SlotFor(target) := Binding(0, 0, 0)]
                  else if Copy(b.objects, name).Some?
                  then a.bound[SlotFor(target) := Binding(name, b.objects[name].value.serial, b.objects[name].value.born)] else a.bound
  }

  ghost predicate Stores(a: Snapshot, target: Target, size: int, data: Option<seq<byte>>, memory: bool, admitted: bool, b: Snapshot,
                         maxWords: nat, maxBytes: nat)
    requires |a.bound| >= 2
  {
    if size < 0 || At(a, target).None? then b == a
    else
      var stored := size <= maxBytes && (|At(a, target).value.data| == size || memory);
      var contents := if !stored then [] else if data.Some? then data.value else Zeros(size);
      && b.bound == a.bound && b.born == a.born
      && b.objects == Rewritten(a, target, At(a, target).value.(data := contents, mapped := false, access := ReadWrite, admitted := admitted))
      && StoreSent(a.records, b.records, NameAt(a, target), contents, data.Some?, admitted, maxWords)
  }

  ghost predicate Patches(a: Snapshot, target: Target, offset: int, bytes: seq<byte>, b: Snapshot, maxWords: nat)
    requires |a.bound| >= 2
  {
    var at := At(a, target);
    if offset < 0 || at.None? || at.value.mapped || offset + |bytes| > |at.value.data| then b == a
    else
      && b.bound == a.bound && b.born == a.born
      && b.objects == Rewritten(a, target, at.value.(data := Patched(at.value.data, offset, bytes)))
      && PartSent(a.records, b.records, NameAt(a, target), maxWords)
  }

  ghost predicate Unmaps(a: Snapshot, target: Target, b: Snapshot, maxWords: nat)
    requires |a.bound| >= 2
  {
    var at := At(a, target);
    if at.None? || !at.value.mapped then b == a
    else
      && b.bound == a.bound && b.born == a.born && b.objects == Rewritten(a, target, at.value.(mapped := false))
      && if at.value.access == ReadOnly then b.records == a.records else PartSent(a.records, b.records, NameAt(a, target), maxWords)
  }

  /** Exactly what each call changes. */
  ghost predicate Effect(a: Snapshot, call: Call, b: Snapshot, limit: nat, maxWords: nat, maxBytes: nat)
    requires |a.bound| >= 2
  {
    match call
    case Gen(count) => Reserves(a, count, b, limit)
    case Bind(target, name, memory) => Binds(a, target, name, memory, b, limit)
    case Delete(buffers) =>
      && b.objects == a.objects - (set n | n in buffers) && b.bound == Survivors(a.objects, a.bound, buffers) && b.born == a.born
      && DeletesSent(a.records, b.records, a.objects, buffers, maxWords)
    case Data(target, bytes, memory, admitted) => Stores(a, target, |bytes|, Some(bytes), memory, admitted, b, maxWords, maxBytes)
    case Zero(target, size, memory, admitted) => Stores(a, target, size, None, memory, admitted, b, maxWords, maxBytes)
    case Part(target, offset, bytes) => Patches(a, target, offset, bytes, b, maxWords)
    case Map(target, access) =>
      b == if At(a, target).None? || At(a, target).value.mapped then a
           else a.(objects := Rewritten(a, target, At(a, target).value.(mapped := true, access := access)))
    case Write(target, at, value) =>
      b == if At(a, target).None? || !WriteMapped(At(a, target).value) || at >= |At(a, target).value.data| then a
           else a.(objects := Rewritten(a, target, At(a, target).value.(data := At(a, target).value.data[at := value])))
    case Unmap(target) => Unmaps(a, target, b, maxWords)
    case Pointer(slot) => b == if slot + 2 < |a.bound| then a.(bound := a.bound[slot + 2 := a.bound[0]]) else a
  }

  ghost predicate Effects(states: seq<Snapshot>, calls: seq<Call>, limit: nat, maxWords: nat, maxBytes: nat) {
    && |states| == |calls| + 1
    && forall i :: 0 <= i < |calls| ==> |states[i].bound| >= 2 && Effect(states[i], calls[i], states[i + 1], limit, maxWords, maxBytes)
  }

  lemma EffectAdmits(a: Snapshot, call: Call, b: Snapshot, limit: nat, maxWords: nat, maxBytes: nat)
    requires |a.bound| >= 2 && Effect(a, call, b, limit, maxWords, maxBytes) && AllAdmitted(a.objects) && Accepts(call)
    ensures AllAdmitted(b.objects)
  {
    hide SerialOf, Fresh, Survivors, StoreSent, PartSent, DeletesSent, Patched;
    forall name | Copy(b.objects, name).Some?
      ensures b.objects[name].value.admitted
    {
      assert Copy(a.objects, name).Some? ==> a.objects[name].value.admitted;
    }
  }

  class Buffers {
    const Names: NameTable<Option<Buffer>>
    const Limit: u32
    const MaxWords: nat
    const MaxBytes: nat
    var Serial: u32
    var Born: nat
    var Array: Binding
    var Element: Binding
    /** What each vertex array latched when its pointer was given. */
    var Latches: seq<Binding>
    var Records: seq<Record>

    ghost predicate Inv()
      reads this, Names, Names.Entries
    {
      && Names.Valid() && Names.vacant == None && Names.Count <= Limit && 2 * Limit <= Names.slots && 32 <= MaxWords
      && Serial == SerialOf(Born) && State(Names.Map(), Replay(Records), Born, Bindings())
    }

    ghost function Objects(): Objects
      requires Names.Valid()
      reads this, Names, Names.Entries
    {
      Names.Map()
    }

    function Bindings(): seq<Binding>
      reads this
    {
      [Array, Element] + Latches
    }

    function BoundAt(target: Target): Binding
      reads this
    {
      if target == ArrayBuffer then Array else Element
    }

    constructor (slots: nat, limit: u32, arrays: nat, maxWords: nat, maxBytes: nat)
      requires PowerOfTwo(slots) && slots <= HALF && 2 * limit <= slots && 32 <= maxWords
      ensures Inv() && fresh(Names) && fresh(Names.Entries) && Objects() == map[] && Records == [] && |Latches| == arrays
      ensures Born == 0 && Limit == limit && MaxWords == maxWords && MaxBytes == maxBytes
      ensures forall i :: 0 <= i < |Bindings()| ==> Bindings()[i].name == 0
    {
      Names := new NameTable(slots, None);
      Limit, MaxWords, MaxBytes := limit, maxWords, maxBytes;
      Serial, Born, Records := 0, 0, [];
      Array, Element, Latches := Binding(0, 0, 0), Binding(0, 0, 0), seq(arrays, _ => Binding(0, 0, 0));
    }

    /** JglBufferObject on a binding. */
    method BoundBuffer(target: Target) returns (b: Option<Buffer>)
      requires Inv()
      ensures b == Resolve(Objects(), BoundAt(target))
      ensures b.Some? ==> Copy(Objects(), BoundAt(target).name) == b
    {
      hide State, SerialOf, Replay, Chained, Clean, Contents, PassesTo, PowerOfTwo;
      var at := BoundAt(target);
      if at.name == 0 {
        return None;
      }
      var e := Names.Find(at.name);
      b := Names.Entries[e].Payload;
      if b.Some? && b.value.serial != at.serial {
        b := None;
      }
    }

    /** The table entry of an object that exists takes other contents; the records already say so. */
    method Rewrite(name: u32, b: Buffer, ghost host: Store)
      requires Names.Valid() && Names.vacant == None && Names.Count <= Limit && 2 * Limit <= Names.slots && 32 <= MaxWords
      requires name != 0 && Copy(Objects(), name).Some? && Serial == SerialOf(Born)
      requires State(Objects(), host, Born, Bindings())
      requires OnlyAt(host, Replay(Records), name) && Mirrors(b, Held(Replay(Records), name))
      requires b.born == Objects()[name].value.born && b.serial == Objects()[name].value.serial
      modifies Names`Count, Names.Entries
      ensures Inv() && Objects() == old(Objects())[name := Some(b)]
    {
      hide State, SerialOf, Replay, Chained, Clean, Contents, PassesTo, PowerOfTwo, OnlyAt, Mirrors, Held;
      RewriteKeeps(Objects(), host, Replay(Records), Born, Bindings(), name, b);
      var e := Names.Find(name);
      Names.Store(e, name, Some(b));
    }

    /** glGenBuffersARB: unused names without objects, all or none. */
    method GenBuffers(count: int) returns (names: seq<u32>, error: Error)
      requires Inv() && count < WORD
      modifies Names, Names.Entries
      ensures Inv() && Records == old(Records)
      ensures error == if count < 0 then InvalidValue else if count > Limit - old(Names.Count) then OutOfMemory else NoError
      ensures error == NoError ==> |names| == count && Fresh(old(Objects()).Keys, names) && Objects() == Reserved(old(Objects()), names, None)
      ensures error != NoError ==> names == [] && Objects() == old(Objects())
    {
      hide State, SerialOf, Replay, Chained, Clean, Contents, PassesTo, PowerOfTwo, Fresh, Reserved;
      if count < 0 {
        return [], InvalidValue;
      }
      ghost var m := Objects();
      var reserved;
      names, reserved := Names.Generate(Limit, count);
      if !reserved {
        return names, OutOfMemory;
      }
      ReserveKeeps(m, names, Replay(Records), Born, Bindings());
      return names, NoError;
    }

    /** glBindBufferARB. A name without an object gets one, while memory lasts for it and for its empty contents. */
    method BindBuffer(target: Target, name: u32, memory: Memory) returns (error: Error)
      requires Inv()
      modifies this`Serial, this`Born, this`Array, this`Element, Names`Count, Names.Entries
      ensures Inv() && Records == old(Records)
      ensures name == 0 ==> error == NoError && BoundAt(target) == Binding(0, 0, 0) && Objects() == old(Objects())
      ensures name != 0 ==>
                (error == NoError <==> old(Copy(Objects(), name)).Some? || (memory == Enough && (name in old(Objects()) || old(Names.Count) < Limit)))
      ensures name != 0 && error == NoError ==>
                && Copy(Objects(), name).Some? && BoundAt(target) == Binding(name, Objects()[name].value.serial, Objects()[name].value.born)
                && Objects() == old(Objects())[name := Objects()[name]]
                && (old(Copy(Objects(), name)).Some? ==> Objects() == old(Objects()))
                && (old(Copy(Objects(), name)).None? ==> Objects()[name].value == Buffer(Serial, old(Born) + 1, [], false, ReadWrite, true))
      ensures Born == old(Born) + if name != 0 && memory != Nothing && old(Copy(Objects(), name)).None? && (name in old(Objects()) || old(Names.Count) < Limit) then 1 else 0
      ensures forall other :: other != target ==> BoundAt(other) == old(BoundAt(other))
      ensures error != NoError ==> error == OutOfMemory && Objects() == old(Objects()) && BoundAt(target) == old(BoundAt(target))
    {
      hide State, SerialOf, Replay, Chained, Clean, Contents, PassesTo, PowerOfTwo, NextSerial;
      if name == 0 {
        UnbindKeeps(Objects(), Replay(Records), Born, Bindings());
        SetBinding(target, Binding(0, 0, 0));
        return NoError;
      }
      var e := Names.Find(name);
      var b := Names.Entries[e].Payload;
      if b.None? && (Names.Entries[e].Name != 0 || Names.Count < Limit) {
        SerialFollows(Born);
        if memory != Nothing {
          SerialDrawn(Objects(), Replay(Records), Born, Bindings());
          Serial, Born := NextSerial(Serial), Born + 1;
        }
        if memory == Enough {
          b := Some(Buffer(Serial, Born, [], false, ReadWrite, true));
          CreateKeeps(Objects(), Replay(Records), Born, Bindings(), name, b.value);
          Names.Store(e, name, b);
        }
      }
      if b.None? {
        return OutOfMemory;
      }
      BindKeeps(Objects(), Replay(Records), Born, Bindings(), name);
      SetBinding(target, Binding(name, b.value.serial, b.value.born));
      return NoError;
    }

    method SetBinding(target: Target, at: Binding)
      requires Inv() && Latched(Objects(), at, Born)
      modifies this`Array, this`Element
      ensures Inv() && BoundAt(target) == at
      ensures forall other :: other != target ==> BoundAt(other) == old(BoundAt(other))
    {
      hide SerialOf, Replay, NameTable.Valid, Mirrored, Numbered, Latched;
      ghost var bound := Bindings();
      if target == ArrayBuffer {
        Array := at;
      } else {
        Element := at;
      }
      assert forall i :: 0 <= i < |bound| ==> Bindings()[i] == bound[i] || Bindings()[i] == at;
    }

    /** glVertexPointer and its kin: the array latches whatever ARRAY_BUFFER binds. */
    method Pointer(slot: nat)
      requires Inv() && slot < |Latches|
      modifies this`Latches
      ensures Inv() && Latches == old(Latches)[slot := Array]
    {
      hide SerialOf, Replay, NameTable.Valid, Mirrored, Numbered, Latched;
      ghost var bound := Bindings();
      assert bound[0] == Array;
      Latches := Latches[slot := Array];
      assert forall i :: 0 <= i < |bound| ==> Bindings()[i] == bound[i] || Bindings()[i] == bound[0];
    }

    /** The object that `target` names, and what Inv says of it. */
    lemma OfBinding(target: Target)
      requires Inv() && Resolve(Objects(), BoundAt(target)).Some?
      ensures var name := BoundAt(target).name;
              name != 0 && Copy(Objects(), name).Some? && Mirrors(Objects()[name].value, Held(Replay(Records), name))
    {
      hide Mirrors, SerialOf, Chained, Clean, Contents, PowerOfTwo;
      OneObject(Objects(), Replay(Records), BoundAt(target).name);
    }

    /**
     * glBufferDataARB. `memory` says whether other storage could be had,
     * `admitted` what the host answers.
     */
    method BufferData(target: Target, size: int, data: Option<seq<byte>>, memory: bool, admitted: bool) returns (error: Error)
      requires Inv() && (data.Some? && size >= 0 ==> |data.value| == size)
      modifies this`Records, Names`Count, Names.Entries
      ensures Inv() && old(Records) <= Records
      ensures var bound := old(Resolve(Objects(), BoundAt(target)));
              if size < 0 then error == InvalidValue && Records == old(Records) && Objects() == old(Objects())
              else if bound.None? then error == InvalidOperation && Records == old(Records) && Objects() == old(Objects())
              else
                var stored := size <= MaxBytes && (|bound.value.data| == size || memory);
                && error == (if stored then NoError else OutOfMemory)
                && Objects() == old(Objects())[BoundAt(target).name :=
                     Some(bound.value.(data := if !stored then [] else if data.Some? then data.value else Zeros(size),
                                       mapped := false, access := ReadWrite, admitted := admitted))]
                && StoreSent(old(Records), Records, BoundAt(target).name, Objects()[BoundAt(target).name].value.data, data.Some?, admitted, MaxWords)
    {
      hide Replay, State, SerialOf, Mirrors, Chained, Clean, Contents, PowerOfTwo, OnlyAt, Held, PassesTo;
      if size < 0 {
        return InvalidValue;
      }
      var bound := BoundBuffer(target);
      if bound.None? {
        return InvalidOperation;
      }
      OfBinding(target);
      var name := BoundAt(target).name;
      var stored := size <= MaxBytes && (|bound.value.data| == size || memory);
      var contents := if !stored then [] else if data.Some? then data.value else Zeros(size);
      var b := bound.value.(data := contents, mapped := false, access := ReadWrite, admitted := admitted);
      ghost var host := Replay(Records);
      SubmitStore(name, b, data.Some?, host);
      Rewrite(name, b, host);
      return if stored then NoError else OutOfMemory;
    }

    /** Small contents travel with their storage; larger ones follow it, slab by slab. */
    method SubmitStore(name: u32, b: Buffer, filled: bool, ghost host: Store)
      requires 32 <= MaxWords && host == Replay(Records) && !b.mapped && (!filled ==> b.data == Zeros(|b.data|))
      modifies this`Records
      ensures old(Records) <= Records && OnlyAt(host, Replay(Records), name) && Mirrors(b, Held(Replay(Records), name))
      ensures StoreSent(old(Records), Records, name, b.data, filled, b.admitted, MaxWords)
    {
      hide Replay, Mirrors, OnlyAt, Held, Stored, Apply;
      var inline := filled && |b.data| <= MaxDataBytes(3, MaxWords);
      var r := Record.BufferData(name, |b.data|, inline, if inline then b.data else [], b.admitted);
      NewStoreMirrors(host, name, b, inline, filled, b.admitted);
      DataFitsIff(3, |b.data|, MaxWords);
      ReplayOneMore(Records, r);
      Records := Records + [r];
      if filled && !inline {
        Records := SubmitContents(Records, name, 0, b.data, MaxDataBytes(2, MaxWords));
      }
    }

    /** glBufferSubDataARB. */
    method BufferSubData(target: Target, offset: int, size: int, data: Option<seq<byte>>) returns (error: Error)
      requires Inv() && (data.Some? && size >= 0 ==> |data.value| == size)
      modifies this`Records, Names`Count, Names.Entries
      ensures Inv() && old(Records) <= Records
      ensures var bound := old(Resolve(Objects(), BoundAt(target)));
              && error == (if offset < 0 || size < 0 then InvalidValue
                           else if bound.None? then InvalidOperation
                           else if offset + size > |bound.value.data| then InvalidValue
                           else if bound.value.mapped then InvalidOperation else NoError)
              && (error != NoError || data.None? ==> Records == old(Records) && Objects() == old(Objects()))
              && (error == NoError && data.Some? ==>
                    Objects() == old(Objects())[BoundAt(target).name := Some(bound.value.(data := Patched(bound.value.data, offset, data.value)))]
                    && PartSent(old(Records), Records, BoundAt(target).name, MaxWords))
    {
      hide Replay, State, SerialOf, Mirrors, Chained, Clean, Contents, PowerOfTwo, OnlyAt, Held, PassesTo, Stored;
      if offset < 0 || size < 0 {
        return InvalidValue;
      }
      var bound := BoundBuffer(target);
      if bound.None? {
        return InvalidOperation;
      }
      var b := bound.value;
      if offset + size > |b.data| {
        return InvalidValue;
      }
      if b.mapped {
        return InvalidOperation;
      }
      if data.Some? {
        OfBinding(target);
        var name := BoundAt(target).name;
        ghost var host := Replay(Records);
        StoredMirrors(host, name, b, offset, data.value);
        MirroredLength(b, Held(host, name));
        Records := SubmitContents(Records, name, offset, data.value, MaxDataBytes(2, MaxWords));
        Rewrite(name, b.(data := Patched(b.data, offset, data.value)), host);
      }
      return NoError;
    }

    /** glGetBufferSubDataARB: answered from the copy, which is what the host would answer. */
    method GetBufferSubData(target: Target, offset: int, size: int) returns (bytes: seq<byte>, error: Error)
      requires Inv()
      ensures var bound := Resolve(Objects(), BoundAt(target));
              && error == (if offset < 0 || size < 0 then InvalidValue
                           else if bound.None? then InvalidOperation
                           else if offset + size > |bound.value.data| then InvalidValue
                           else if bound.value.mapped then InvalidOperation else NoError)
              && (error == NoError ==> bytes == bound.value.data[offset..offset + size])
              && (error == NoError && bound.value.admitted ==>
                    |Held(Replay(Records), BoundAt(target).name)| == |bound.value.data|
                    && bytes == Held(Replay(Records), BoundAt(target).name)[offset..offset + size])
    {
      hide Replay, State, SerialOf, Chained, Clean, Contents, PowerOfTwo, Held, PassesTo;
      if offset < 0 || size < 0 {
        return [], InvalidValue;
      }
      var bound := BoundBuffer(target);
      if bound.None? {
        return [], InvalidOperation;
      }
      var b := bound.value;
      if offset + size > |b.data| {
        return [], InvalidValue;
      }
      if b.mapped {
        return [], InvalidOperation;
      }
      OfBinding(target);
      return b.data[offset..offset + size], NoError;
    }

    /** glMapBufferARB. */
    method MapBuffer(target: Target, access: Access) returns (error: Error)
      requires Inv()
      modifies Names`Count, Names.Entries
      ensures Inv()
      ensures var bound := old(Resolve(Objects(), BoundAt(target)));
              if bound.None? || bound.value.mapped then error == InvalidOperation && Objects() == old(Objects())
              else error == NoError && Objects() == old(Objects())[BoundAt(target).name := Some(bound.value.(mapped := true, access := access))]
    {
      hide Replay, State, SerialOf, Chained, Clean, Contents, PowerOfTwo, Held, PassesTo;
      var bound := BoundBuffer(target);
      if bound.None? || bound.value.mapped {
        return InvalidOperation;
      }
      OfBinding(target);
      NothingStored(Replay(Records), BoundAt(target).name);
      Rewrite(BoundAt(target).name, bound.value.(mapped := true, access := access), Replay(Records));
      return NoError;
    }

    /** The application stores through the pointer of a write mapping. */
    method WriteMapping(name: u32, offset: nat, value: byte)
      requires Inv() && name != 0 && Copy(Objects(), name).Some?
      requires WriteMapped(Objects()[name].value) && offset < |Objects()[name].value.data|
      modifies Names`Count, Names.Entries
      ensures Inv() && Objects() == old(Objects())[name := Some(old(Objects()[name].value).(data := old(Objects()[name].value.data)[offset := value]))]
    {
      hide Replay, State, SerialOf, Chained, Clean, Contents, PowerOfTwo, Held, PassesTo;
      var e := Names.Find(name);
      var b := Names.Entries[e].Payload.value;
      MirrorOf(name);
      NothingStored(Replay(Records), name);
      Rewrite(name, b.(data := b.data[offset := value]), Replay(Records));
    }

    lemma MirrorOf(name: u32)
      requires Inv() && Copy(Objects(), name).Some?
      ensures Mirrors(Objects()[name].value, Held(Replay(Records), name))
    {
      hide Mirrors, SerialOf, Chained, Clean, Contents, PowerOfTwo;
      OneObject(Objects(), Replay(Records), name);
    }

    /** glUnmapBufferARB: what a write mapping changed is sent, all of the store at once. */
    method UnmapBuffer(target: Target) returns (ok: bool, error: Error)
      requires Inv()
      modifies this`Records, Names`Count, Names.Entries
      ensures Inv() && old(Records) <= Records && ok == (error == NoError)
      ensures var bound := old(Resolve(Objects(), BoundAt(target)));
              if bound.None? || !bound.value.mapped then error == InvalidOperation && Objects() == old(Objects()) && Records == old(Records)
              else
                && error == NoError && Objects() == old(Objects())[BoundAt(target).name := Some(bound.value.(mapped := false))]
                && if bound.value.access == ReadOnly then Records == old(Records) else PartSent(old(Records), Records, BoundAt(target).name, MaxWords)
    {
      hide Replay, State, SerialOf, Mirrors, Chained, Clean, Contents, PowerOfTwo, OnlyAt, Held, PassesTo, Stored;
      var bound := BoundBuffer(target);
      if bound.None? || !bound.value.mapped {
        return false, InvalidOperation;
      }
      OfBinding(target);
      var b, name := bound.value, BoundAt(target).name;
      ghost var host := Replay(Records);
      if b.access != ReadOnly {
        StoredMirrors(host, name, b, 0, b.data);
        MirroredLength(b, Held(host, name));
        Records := SubmitContents(Records, name, 0, b.data, MaxDataBytes(2, MaxWords));
      } else {
        NothingStored(host, name);
        UnmapReadOnly(b, Held(host, name));
      }
      Rewrite(name, b.(mapped := false), host);
      return true, NoError;
    }

    /** Inv while names wait for the batch that deletes their objects on the host. */
    ghost predicate Deleting(pending: seq<u32>)
      reads this, Names, Names.Entries
    {
      && Names.Valid() && Names.vacant == None && Names.Count <= Limit && 2 * Limit <= Names.slots && 32 <= MaxWords
      && Serial == SerialOf(Born) && Mirrored(Objects(), Replay(Records), pending)
      && Numbered(Objects(), Born) && AllLatched(Objects(), Bindings(), Born)
    }

    /** JglForgetBuffer: bindings and arrays that latched the object revert to nothing. */
    method Forget(name: u32, was: Option<Buffer>)
      modifies this`Array, this`Element, this`Latches
      ensures AllReverted(old(Bindings()), Bindings(), name, was)
    {
      Array, Element := Reverted(Array, name, was), Reverted(Element, name, was);
      var i := 0;
      while i < |Latches|
        invariant i <= |Latches| == |old(Latches)|
        invariant forall k :: 0 <= k < |Latches| ==> Latches[k] == if k < i then Reverted(old(Latches)[k], name, was) else old(Latches)[k]
        modifies this`Latches
      {
        Latches := Latches[i := Reverted(Latches[i], name, was)];
        i := i + 1;
      }
    }

    /** One name leaves the table; bindings of its object revert to nothing. */
    method DeleteOne(name: u32, ghost pending: seq<u32>) returns (was: Option<Buffer>)
      requires Deleting(pending)
      modifies this`Array, this`Element, this`Latches, Names`Count, Names.Entries
      ensures Deleting(if was.Some? then pending + [name] else pending)
      ensures was == (if name == 0 then None else old(Copy(Objects(), name))) && Objects() == old(Objects()) - {name}
      ensures AllReverted(old(Bindings()), Bindings(), name, was)
    {
      hide Replay, Mirrored, SerialOf, Mirrors, Chained, Clean, Contents, PowerOfTwo, PassesTo, AllLatched, AllReverted;
      NoZero(Objects());
      ghost var m, bound := Objects(), Bindings();
      if name == 0 {
        AlreadyGone(m, bound, name);
        return None;
      }
      var e := Names.Find(name);
      was := Names.Entries[e].Payload;
      if Names.Entries[e].Name != 0 {
        RemovedMirrors(m, Replay(Records), pending, name);
        Names.Remove(e);
        Forget(name, was);
        AllRevertedLatched(m, bound, Bindings(), name, was, Born);
      } else {
        AlreadyGone(m, bound, name);
      }
    }

    lemma NoZero(m: Objects)
      requires Names.Valid() && m == Objects()
      ensures 0 !in m
    {
      hide Chained, Clean, PassesTo;
    }

    /** The batch goes out; the host's objects are gone. */
    method DeleteBatch(pending: seq<u32>)
      requires Deleting(pending)
      modifies this`Records
      ensures Inv() && Records == old(Records) + [Deletes(pending)]
    {
      hide Replay, Mirrored, SerialOf, Chained, Clean, Contents, PowerOfTwo, Apply;
      DeletedMirrors(Objects(), Replay(Records), pending);
      ReplayOneMore(Records, Deletes(pending));
      Records := Records + [Deletes(pending)];
    }

    /** A name of the list: its object joins the batch, which goes out when it is full. */
    method DeleteNext(name: u32, pending: seq<u32>, limit: nat, ghost m: Objects, ghost bound: seq<Binding>, ghost done: seq<u32>)
      returns (left: seq<u32>)
      requires Progress(m, bound, done, pending) && |pending| < limit
      modifies this`Array, this`Element, this`Latches, this`Records, Names`Count, Names.Entries
      ensures Progress(m, bound, done + [name], left) && |left| < limit
      ensures old(Copy(Objects(), name)).None? || name == 0 ==> Records == old(Records) && left == pending
      ensures old(Copy(Objects(), name)).Some? && name != 0 ==>
                if |pending| + 1 == limit then Records == old(Records) + [Deletes(pending + [name])] && left == []
                else Records == old(Records) && left == pending + [name]
    {
      hide Replay, Mirrored, SerialOf, Chained, Clean, Contents, PowerOfTwo, PassesTo, Numbered, AllLatched, Survivors, AllReverted;
      OneMoreRemoved(m, done, name);
      ghost var bound1 := Bindings();
      var was := DeleteOne(name, pending);
      OneMoreDeleted(m, bound, bound1, Bindings(), done, name, was);
      left := pending;
      if was.Some? {
        left := pending + [name];
        if |left| == limit {
          DeleteBatch(left);
          left := [];
        }
      }
    }

    ghost predicate Progress(m: Objects, bound: seq<Binding>, done: seq<u32>, pending: seq<u32>)
      reads this, Names, Names.Entries
    {
      && Deleting(pending) && Objects() == m - (set n | n in done)
      && Bindings() == Survivors(m, bound, done)
    }

    lemma ProgressStarts()
      requires Inv()
      ensures Progress(Objects(), Bindings(), [], [])
    {
      hide Replay, Mirrored, SerialOf, Chained, Clean, Contents, PowerOfTwo, Numbered, AllLatched, Survivors;
      NoneDeleted(Objects(), Bindings());
      assert Objects() - (set n | n in []) == Objects();
    }

    method LastBatch(pending: seq<u32>, ghost m: Objects, ghost bound: seq<Binding>, ghost done: seq<u32>)
      requires Progress(m, bound, done, pending)
      modifies this`Records
      ensures Inv() && Records == old(Records) + (if pending == [] then [] else [Deletes(pending)]) && Objects() == m - (set n | n in done)
      ensures Bindings() == Survivors(m, bound, done)
    {
      hide Replay, Mirrored, SerialOf, Chained, Clean, Contents, PowerOfTwo, Numbered, AllLatched, Survivors;
      if pending != [] {
        DeleteBatch(pending);
      }
    }

    /** glDeleteBuffersARB: the table forgets at once, the host batch by batch. */
    method DeleteBuffers(buffers: seq<u32>)
      requires Inv()
      modifies this`Array, this`Element, this`Latches, this`Records, Names`Count, Names.Entries
      ensures Inv() && DeletesSent(old(Records), Records, old(Objects()), buffers, MaxWords)
      ensures Objects() == old(Objects()) - (set n | n in buffers)
      ensures Bindings() == Survivors(old(Objects()), old(Bindings()), buffers)
    {
      hide Replay, Mirrored, SerialOf, Chained, Clean, Contents, PowerOfTwo, PassesTo, Numbered, Latched, Survivors, Progress, AllLatched,
        Sending, DeletesSent, MaxDataBytes, IsBatch;
      BatchIs(MaxWords);
      var limit := if MaxDataBytes(1, MaxWords) / 4 < 256 then MaxDataBytes(1, MaxWords) / 4 else 256;
      BatchHolds(limit, MaxWords);
      var pending: seq<u32> := [];
      ghost var m, bound, records0 := Objects(), Bindings(), Records;
      ProgressStarts();
      SendingStarts(records0, m, limit);
      var i := 0;
      assert buffers[..i] == [];
      while i < |buffers|
        invariant i <= |buffers| && Progress(m, bound, buffers[..i], pending) && |pending| < limit
        invariant Sending(records0, Records, m, buffers[..i], pending, limit)
        modifies this`Array, this`Element, this`Latches, this`Records, Names`Count, Names.Entries
      {
        ProgressObjects(m, bound, buffers[..i], pending);
        ghost var records1, pending1, left := Records, pending, Objects();
        pending := DeleteNext(buffers[i], pending, limit, m, bound, buffers[..i]);
        SendingNext(records0, records1, Records, m, left, buffers[..i], buffers[i], pending1, pending, limit);
        assert buffers[..i + 1] == buffers[..i] + [buffers[i]];
        i := i + 1;
      }
      assert buffers[..i] == buffers;
      ghost var records1 := Records;
      LastBatch(pending, m, bound, buffers);
      SendingEnds(records0, records1, Records, m, buffers, pending, limit, MaxWords);
    }

    lemma ProgressObjects(m: Objects, bound: seq<Binding>, done: seq<u32>, pending: seq<u32>)
      requires Progress(m, bound, done, pending)
      ensures Names.Valid() && Objects() == m - (set n | n in done)
    {
      hide Chained, Clean, Contents, PowerOfTwo;
    }

    ghost function Snap(): Snapshot
      requires Names.Valid()
      reads this, Names, Names.Entries
    {
      Snapshot(Objects(), Bindings(), Records, Born)
    }

    lemma CountIsSize()
      requires Names.Valid()
      ensures Names.Count == |Objects()|
    {
      hide Chained, Clean, Contents, PowerOfTwo;
    }

    /**
     * Any run of calls, call by call: every object's copy is the host's store
     * unless a write mapping is open or the host refused its storage; if it
     * refuses none, all are. No binding resolves to another object before the
     * serials wrap.
     */
    method Run(calls: seq<Call>)
      requires Inv()
      modifies this, Names, Names.Entries
      ensures Inv() && CopiesAreTheHosts(Objects(), Replay(Records)) && BindingsResolve(Objects(), Bindings(), Born)
      ensures old(AllAdmitted(Objects())) && (forall c :: c in calls ==> Accepts(c)) ==> CopiesEqual(Objects(), Replay(Records))
      ensures exists states :: Effects(states, calls, Limit, MaxWords, MaxBytes) && states[0] == old(Snap()) && states[|calls|] == Snap()
    {
      hide AllAdmitted, CopiesEqual, Replay, State, SerialOf, Chained, Clean, Contents, PowerOfTwo, PassesTo, Fresh, Reserved, Surviving, Resolve, Copy, Patched, Effect;
      ghost var states := [Snap()];
      var i := 0;
      assert calls[..i] == [];
      while i < |calls|
        invariant i <= |calls| && Inv()
        invariant Effects(states, calls[..i], Limit, MaxWords, MaxBytes) && states[0] == old(Snap()) && states[i] == Snap()
        invariant old(AllAdmitted(Objects())) && (forall c :: c in calls ==> Accepts(c)) ==> AllAdmitted(Objects())
      {
        ghost var was := Snap();
        Serve(calls[i]);
        if AllAdmitted(was.objects) && Accepts(calls[i]) {
          EffectAdmits(was, calls[i], Snap(), Limit, MaxWords, MaxBytes);
        }
        assert calls[..i + 1] == calls[..i] + [calls[i]];
        states := states + [Snap()];
        i := i + 1;
      }
      assert calls[..i] == calls;
      StateMeans(Objects(), Replay(Records), Born, Bindings());
    }

    method Serve(call: Call)
      requires Inv()
      modifies this, Names, Names.Entries
      ensures Inv() && Effect(old(Snap()), call, Snap(), Limit, MaxWords, MaxBytes)
    {
      hide Replay, State, SerialOf, Chained, Clean, Contents, PowerOfTwo, PassesTo, Fresh, Reserved, Survivors, Patched, Mirrors, Held, StoreSent, PartSent, DeletesSent;
      match call {
        case Gen(count) => ServeNames(call);
        case Bind(target, name, memory) => ServeNames(call);
        case Delete(buffers) => ServeNames(call);
        case Pointer(slot) => ServeNames(call);
        case Map(target, access) => ServeMapping(call);
        case Write(target, offset, value) => ServeMapping(call);
        case Unmap(target) => ServeMapping(call);
        case _ => ServeStore(call);
      }
    }

    method ServeNames(call: Call)
      requires Inv() && (call.Gen? || call.Bind? || call.Delete? || call.Pointer?)
      modifies this, Names, Names.Entries
      ensures Inv() && Effect(old(Snap()), call, Snap(), Limit, MaxWords, MaxBytes)
    {
      hide Replay, State, SerialOf, Chained, Clean, Contents, PowerOfTwo, PassesTo, Fresh, Reserved, Survivors, Mirrors, Held, DeletesSent, Resolve;
      CountIsSize();
      var error;
      match call {
        case Gen(count) =>
          var names;
          names, error := GenBuffers(count);
        case Bind(target, name, memory) =>
          ghost var first, second := BoundAt(ArrayBuffer), BoundAt(ElementArrayBuffer);
          error := BindBuffer(target, name, memory);
          assert Array == BoundAt(ArrayBuffer) && Element == BoundAt(ElementArrayBuffer);
          assert Bindings() == old(Bindings())[SlotFor(target) := BoundAt(target)];
        case Delete(buffers) => DeleteBuffers(buffers);
        case Pointer(slot) => if slot < |Latches| { Pointer(slot); }
      }
    }

    method ServeStore(call: Call)
      requires Inv() && (call.Data? || call.Zero? || call.Part?)
      modifies this`Records, Names`Count, Names.Entries
      ensures Inv() && Effect(old(Snap()), call, Snap(), Limit, MaxWords, MaxBytes)
    {
      hide Replay, State, SerialOf, Chained, Clean, Contents, PowerOfTwo, PassesTo, Resolve, Patched, Mirrors, Held, StoreSent, PartSent;
      var error;
      match call {
        case Data(target, bytes, memory, admitted) => error := BufferData(target, |bytes|, Some(bytes), memory, admitted);
        case Zero(target, size, memory, admitted) => error := BufferData(target, size, None, memory, admitted);
        case Part(target, offset, bytes) => error := BufferSubData(target, offset, |bytes|, Some(bytes));
      }
    }

    method ServeMapping(call: Call)
      requires Inv() && (call.Map? || call.Write? || call.Unmap?)
      modifies this`Records, Names`Count, Names.Entries
      ensures Inv() && Effect(old(Snap()), call, Snap(), Limit, MaxWords, MaxBytes)
    {
      hide Replay, State, SerialOf, Chained, Clean, Contents, PowerOfTwo, PassesTo, Resolve, Patched, Mirrors, Held, StoreSent, PartSent;
      var error;
      match call {
        case Map(target, access) => error := MapBuffer(target, access);
        case Write(target, offset, value) =>
          var bound := BoundBuffer(target);
          if bound.Some? && WriteMapped(bound.value) && offset < |bound.value.data| {
            OfBinding(target);
            WriteMapping(BoundAt(target).name, offset, value);
          }
        case Unmap(target) => var ok; ok, error := UnmapBuffer(target);
      }
    }
  }
}
