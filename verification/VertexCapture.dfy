/**
 * Capturing client vertices into a packet (guest/opengl/arrays.cpp, lines
 * 729-837): descriptors, then each enabled array's section, zero elsewhere.
 * Component, the conversion of one signed normalized component to a float, is
 * a parameter of the client.
 */
module VertexCapture {
  import opened Words
  import opened ArrayLayout
  import opened DrawSplit

  type byte = x: int | 0 <= x < 256

  datatype Option<T> = None | Some(value: T)

  datatype Float = Float(b0: byte, b1: byte, b2: byte, b3: byte)

  /** The application's memory and the arithmetic of Component. */
  datatype Client = Client(mem: nat -> byte, component: (seq<byte>, nat) -> Float)

  /** The fields of JGL_ARRAY a capture reads. */
  datatype ClientArray = ClientArray(Size: nat, Stride: nat, Type: nat, Pointer: nat, Normalized: bool, Bgra: bool)

  predicate ValidArray(a: ClientArray) {
    && ComponentBytes(a.Type) != 0 && 1 <= a.Size <= 4
    && (a.Bgra ==> a.Type == 0x1401 && a.Size == 4)
  }

  /** Signed normalized colours, normals and secondary colours travel as floats. */
  function WireType(slot: nat, a: ClientArray): nat {
    if slot in {1, 2, 4} && a.Type in {0x1400, 0x1402, 0x1404} then 0x1406 else a.Type
  }

  /** The secondary colour has no alpha on the wire, BGRA or not. */
  function WireSize(slot: nat, a: ClientArray): nat {
    if a.Bgra && slot == 4 then 3 else a.Size
  }

  function WireBytes(slot: nat, a: ClientArray): nat {
    ComponentBytes(WireType(slot, a)) * WireSize(slot, a)
  }

  function StrideOf(a: ClientArray): nat {
    if a.Stride != 0 then a.Stride else ComponentBytes(a.Type) * a.Size
  }

  function Load(cl: Client, p: nat, n: nat): (r: seq<byte>)
    ensures |r| == n
  {
    seq<byte>(n, i requires 0 <= i => cl.mem(p + i))
  }

  function FloatBytes(f: Float): seq<byte> {
    [f.b0, f.b1, f.b2, f.b3]
  }

  function Converted(cl: Client, p: nat, a: ClientArray, n: nat): (r: seq<byte>)
    ensures |r| == 4 * n
  {
    if n == 0 then []
    else Converted(cl, p, a, n - 1)
         + FloatBytes(cl.component(Load(cl, p + (n - 1) * ComponentBytes(a.Type), ComponentBytes(a.Type)), a.Type))
  }

  /** The element at p in its wire form. */
  function ElementAt(cl: Client, slot: nat, a: ClientArray, p: nat): (r: seq<byte>)
    requires ValidArray(a)
    ensures |r| == WireBytes(slot, a)
  {
    if a.Bgra then
      [cl.mem(p + 2), cl.mem(p + 1), cl.mem(p)] + if WireSize(slot, a) == 4 then [cl.mem(p + 3)] else []
    else if WireType(slot, a) != a.Type then Converted(cl, p, a, a.Size)
    else Load(cl, p, ComponentBytes(a.Type) * a.Size)
  }

  /** What the wire carries for vertex `index` of an array. */
  function WireElement(cl: Client, slot: nat, a: ClientArray, index: nat): (r: seq<byte>)
    requires ValidArray(a)
    ensures |r| == WireBytes(slot, a)
  {
    ElementAt(cl, slot, a, a.Pointer + index * StrideOf(a))
  }

  /** The section of an array for the picked vertices, in order. */
  function Packed(cl: Client, slot: nat, a: ClientArray, picks: seq<nat>): (r: seq<byte>)
    requires ValidArray(a)
    ensures |r| == |picks| * WireBytes(slot, a)
  {
    if picks == [] then []
    else
      PackedLength(|picks| - 1, WireBytes(slot, a));
      Packed(cl, slot, a, picks[..|picks| - 1]) + WireElement(cl, slot, a, picks[|picks| - 1])
  }

  lemma PackedLength(n: nat, k: nat)
    ensures n * k + k == (n + 1) * k
  {
  }

  /** Element v of a section is vertex picks[v], nothing else. */
  lemma {:induction false} PackedAt(cl: Client, slot: nat, a: ClientArray, picks: seq<nat>, v: nat)
    requires ValidArray(a) && v < |picks|
    ensures var b := WireBytes(slot, a);
            && 0 <= v * b <= v * b + b <= |Packed(cl, slot, a, picks)|
            && Packed(cl, slot, a, picks)[v * b..v * b + b] == WireElement(cl, slot, a, picks[v])
  {
    hide WireElement, WireBytes;
    var n, b := |picks| - 1, WireBytes(slot, a);
    PackedLength(n, b);
    if v < n {
      PackedAt(cl, slot, a, picks[..n], v);
    }
  }

  /** The size of one component of a GL type. */
  ghost predicate HasUnit(type_: nat, unit: nat) {
    || (type_ in {0x1400, 0x1401} && unit == 1) || (type_ in {0x1402, 0x1403} && unit == 2)
    || (type_ in {0x1404, 0x1405, 0x1406} && unit == 4) || (type_ == 0x140a && unit == 8)
  }

  /** Where the application keeps vertex `index`: at its own stride, or packed when it gives none. */
  ghost function Address(a: ClientArray, unit: nat, index: nat): nat {
    a.Pointer + index * if a.Stride != 0 then a.Stride else unit * a.Size
  }

  /** An array of a type that travels as it is: byte for byte what the application keeps there. */
  lemma CopiedBytes(cl: Client, slot: nat, a: ClientArray, unit: nat, index: nat, k: nat)
    requires ValidArray(a) && HasUnit(a.Type, unit) && !a.Bgra && k < unit * a.Size
    requires slot !in {1, 2, 4} || a.Type !in {0x1400, 0x1402, 0x1404}
    ensures |WireElement(cl, slot, a, index)| == unit * a.Size && WireElement(cl, slot, a, index)[k] == cl.mem(Address(a, unit, index) + k)
  {
    assert StrideOf(a) == if a.Stride != 0 then a.Stride else unit * a.Size;
  }

  /** BGRA bytes travel as red, green and blue, with alpha but for the secondary colour. */
  lemma BgraBytes(cl: Client, slot: nat, a: ClientArray, index: nat)
    requires ValidArray(a) && a.Bgra
    ensures var w, at := WireElement(cl, slot, a, index), Address(a, 1, index);
            && |w| == (if slot == 4 then 3 else 4)
            && w[0] == cl.mem(at + 2) && w[1] == cl.mem(at + 1) && w[2] == cl.mem(at) && (slot != 4 ==> w[3] == cl.mem(at + 3))
  {
  }

  /** Signed normalized colours, normals and secondary colours: each component converted from its own unit. */
  lemma ConvertedBytes(cl: Client, slot: nat, a: ClientArray, unit: nat, index: nat, c: nat)
    requires ValidArray(a) && HasUnit(a.Type, unit) && slot in {1, 2, 4} && a.Type in {0x1400, 0x1402, 0x1404} && c < a.Size
    ensures var at := Address(a, unit, index) + c * unit;
            var f := cl.component(seq<byte>(unit, i requires 0 <= i => cl.mem(at + i)), a.Type);
            var w := WireElement(cl, slot, a, index);
            |w| == 4 * a.Size && w[4 * c..4 * c + 4] == [f.b0, f.b1, f.b2, f.b3]
  {
    hide Converted;
    var at := Address(a, unit, index);
    assert StrideOf(a) == if a.Stride != 0 then a.Stride else unit * a.Size;
    ConvertedAt(cl, at, a, a.Size, c);
    assert Load(cl, at + c * ComponentBytes(a.Type), ComponentBytes(a.Type)) == seq<byte>(unit, i requires 0 <= i => cl.mem(at + c * unit + i));
  }

  lemma {:induction false} ConvertedAt(cl: Client, p: nat, a: ClientArray, n: nat, c: nat)
    requires c < n
    ensures Converted(cl, p, a, n)[4 * c..4 * c + 4]
            == FloatBytes(cl.component(Load(cl, p + c * ComponentBytes(a.Type), ComponentBytes(a.Type)), a.Type))
  {
    if c < n - 1 {
      ConvertedAt(cl, p, a, n - 1, c);
    }
  }

  function Zeros(n: nat): (r: seq<byte>)
    ensures |r| == n && forall i :: 0 <= i < n ==> r[i] == 0
  {
    seq<byte>(n, _ => 0)
  }

  /** Floats and doubles are never normalized. */
  function Descriptor(slot: nat, a: ClientArray): nat {
    WireType(slot, a) + WireSize(slot, a) * 65536
    + if slot >= 16 && a.Normalized && WireType(slot, a) !in {0x1406, 0x140a} then NORMALIZED else 0
  }

  lemma DescriptorIsSection(slot: nat, a: ClientArray)
    requires ValidArray(a)
    ensures Descriptor(slot, a) < WORD
    ensures SectionOf(true, Descriptor(slot, a)) == SlotSection(slot, Some(a))
    ensures WellFormed(SlotSection(slot, Some(a)))
  {
    assert WireType(slot, a) < 65536 && WireSize(slot, a) < 256;
  }

  function SlotSection(slot: nat, a: Option<ClientArray>): Section {
    if a.None? then Absent else Present(ComponentBytes(WireType(slot, a.value)), WireSize(slot, a.value))
  }

  function SectionsOf(arrays: seq<Option<ClientArray>>): (s: seq<Section>)
    ensures |s| == |arrays|
  {
    seq(|arrays|, i requires 0 <= i < |arrays| => SlotSection(i, arrays[i]))
  }

  predicate ValidArrays(arrays: seq<Option<ClientArray>>) {
    forall i :: 0 <= i < |arrays| && arrays[i].Some? ==> ValidArray(arrays[i].value)
  }

  /** The payload up to the end of the sections before slot i, after `prefix`. */
  function Built(cl: Client, arrays: seq<Option<ClientArray>>, picks: seq<nat>, prefix: seq<byte>, i: nat): (r: seq<byte>)
    requires ValidArrays(arrays) && i <= |arrays|
    ensures |r| == EndBefore(|prefix|, SectionsOf(arrays), |picks|, i)
  {
    if i == 0 then prefix
    else
      var before := Built(cl, arrays, picks, prefix, i - 1);
      if arrays[i - 1].None? then before
      else
        SectionLength(i - 1, arrays[i - 1].value, |picks|);
        before + Zeros(OffsetOf(|prefix|, SectionsOf(arrays), |picks|, i - 1) - |before|)
        + Packed(cl, i - 1, arrays[i - 1].value, picks)
  }

  lemma SectionLength(slot: nat, a: ClientArray, count: nat)
    requires ValidArray(a)
    ensures SectionBytes(SlotSection(slot, Some(a)), count) == count * WireBytes(slot, a)
  {
  }

  /** Reading a built payload at the layout's offsets gives each vertex of each array back. */
  lemma {:induction false} BuiltHolds(cl: Client, arrays: seq<Option<ClientArray>>, picks: seq<nat>, prefix: seq<byte>,
                                      i: nat, n: nat, v: nat)
    requires ValidArrays(arrays) && i < n <= |arrays| && arrays[i].Some? && v < |picks|
    ensures var o, b := OffsetOf(|prefix|, SectionsOf(arrays), |picks|, i), WireBytes(i, arrays[i].value);
            && 0 <= v * b && o + v * b + b <= |Built(cl, arrays, picks, prefix, n)|
            && Built(cl, arrays, picks, prefix, n)[o + v * b..o + v * b + b] == WireElement(cl, i, arrays[i].value, picks[v])
  {
    hide WireBytes, WireElement, Align, SectionsOf, Packed;
    if i == n - 1 {
      PackedAt(cl, i, arrays[i].value, picks, v);
    } else {
      BuiltHolds(cl, arrays, picks, prefix, i, n - 1, v);
    }
  }

  // ---- RawCapture ----

  /** The little-endian value of n bytes. */
  function Value(s: seq<byte>, at: nat, n: nat): nat
    requires at + n <= |s|
    decreases n
  {
    if n == 0 then 0 else s[at] + 256 * Value(s, at + 1, n - 1)
  }

  /** Little-endian words of the three index sizes. */
  lemma ValueOf(s: seq<byte>, at: nat)
    ensures at + 1 <= |s| ==> Value(s, at, 1) == s[at]
    ensures at + 2 <= |s| ==> Value(s, at, 2) == (s[at] as int) + 256 * (s[at + 1] as int)
    ensures at + 4 <= |s| ==> Value(s, at, 4) == (s[at] as int) + 256 * (s[at + 1] as int) + 65536 * (s[at + 2] as int) + 16777216 * (s[at + 3] as int)
  {
    if at + 4 <= |s| {
      assert Value(s, at + 2, 2) == s[at + 2] + 256 * Value(s, at + 3, 1);
      assert Value(s, at + 1, 3) == s[at + 1] + 256 * Value(s, at + 2, 2);
    }
  }

  datatype Capture = Capture(
    arrays: seq<Option<ClientArray>>, indices: Option<seq<byte>>, index_size: nat, first: nat,
    at: nat, count: nat, fan: bool)

  function ChunkOf(c: Capture): Chunk {
    Chunk(c.at, c.count, c.fan)
  }

  /** Index: the vertex an offset of the draw names. */
  function IndexAt(c: Capture, offset: nat): nat
    requires c.indices.Some? ==> (offset + 1) * c.index_size <= |c.indices.value|
  {
    if c.indices.None? then c.first + offset
    else
      OffsetWithin(offset, c.index_size);
      Value(c.indices.value, offset * c.index_size, c.index_size)
  }

  lemma OffsetWithin(offset: nat, size: nat)
    ensures 0 <= offset * size && offset * size + size == (offset + 1) * size
  {
  }

  /** Every offset of the packet lies in the draw. */
  ghost predicate ValidCapture(c: Capture) {
    && ValidArrays(c.arrays) && (c.fan ==> c.at > 0)
    && forall v :: 0 <= v < c.count && c.indices.Some? ==> (Offset(ChunkOf(c), v) + 1) * c.index_size <= |c.indices.value|
  }

  /** The vertex that the packet's v-th element is. */
  function Picked(c: Capture, v: nat): nat
    requires ValidCapture(c) && v < c.count
  {
    IndexAt(c, Offset(ChunkOf(c), v))
  }

  /** The vertices of the packet's first n elements. */
  function Picks(c: Capture, n: nat): (r: seq<nat>)
    requires ValidCapture(c) && n <= c.count
    ensures |r| == n
  {
    if n == 0 then [] else Picks(c, n - 1) + [IndexAt(c, Offset(ChunkOf(c), n - 1))]
  }

  lemma {:induction false} PickAt(c: Capture, n: nat, v: nat)
    requires ValidCapture(c) && v < n <= c.count
    ensures Picks(c, n)[v] == IndexAt(c, Offset(ChunkOf(c), v)) && Picks(c, n)[..v] == Picks(c, v)
  {
    if v < n - 1 {
      PickAt(c, n - 1, v);
      assert Picks(c, n)[..v] == Picks(c, n - 1)[..v];
    } else {
      assert Picks(c, n)[..v] == Picks(c, v);
    }
  }

  /** CopyMemory, ZeroMemory and CopyElement: `bytes` at `at`; nothing before it changes. */
  method Write(out: array<byte>, at: nat, bytes: seq<byte>)
    requires at + |bytes| <= out.Length
    modifies out
    ensures out[..at + |bytes|] == old(out[..at]) + bytes
  {
    for i := 0 to |bytes|
      invariant out[..at + i] == old(out[..at]) + bytes[..i]
    {
      out[at + i] := bytes[i];
    }
  }

  lemma PackedOneMore(cl: Client, slot: nat, a: ClientArray, picks: seq<nat>, v: nat)
    requires ValidArray(a) && v < |picks|
    ensures Packed(cl, slot, a, picks[..v + 1]) == Packed(cl, slot, a, picks[..v]) + WireElement(cl, slot, a, picks[v])
  {
    assert picks[..v + 1][..v] == picks[..v];
  }

  /** A tightly packed run of vertices is one block of client memory. */
  lemma {:induction false} TightRun(cl: Client, slot: nat, a: ClientArray, first: nat, n: nat)
    requires ValidArray(a) && !a.Bgra && WireType(slot, a) == a.Type && StrideOf(a) == WireBytes(slot, a)
    ensures Packed(cl, slot, a, seq(n, v requires 0 <= v => first + v))
            == Load(cl, a.Pointer + first * StrideOf(a), n * WireBytes(slot, a))
  {
    hide WireBytes, StrideOf;
    var b := WireBytes(slot, a);
    if n > 0 {
      TightRun(cl, slot, a, first, n - 1);
      var run := seq(n, v requires 0 <= v => first + v);
      assert run[..n - 1] == seq(n - 1, v requires 0 <= v => first + v);
      RunAddress(a.Pointer, first, n - 1, b);
      LoadSplit(cl, a.Pointer + first * b, (n - 1) * b, b);
    }
  }

  lemma RunAddress(p: nat, first: nat, v: nat, b: nat)
    ensures p + (first + v) * b == p + first * b + v * b && (v + 1) * b == v * b + b && 0 <= v * b && 0 <= first * b
  {
  }

  lemma LoadSplit(cl: Client, p: nat, n: nat, m: nat)
    ensures Load(cl, p, n + m) == Load(cl, p, n) + Load(cl, p + n, m)
  {
  }

  /** The bytes one element copy writes, path by path. */
  method ElementBytesOf(cl: Client, slot: nat, a: ClientArray, source: nat) returns (bytes: seq<byte>)
    requires ValidArray(a)
    ensures bytes == ElementAt(cl, slot, a, source)
  {
    var unit := ComponentBytes(a.Type);
    if a.Bgra {
      bytes := [cl.mem(source + 2), cl.mem(source + 1), cl.mem(source)];
      if WireBytes(slot, a) == 4 {
        bytes := bytes + [cl.mem(source + 3)];
      }
    } else if WireType(slot, a) != a.Type {
      bytes := [];
      for component := 0 to a.Size
        invariant bytes == Converted(cl, source, a, component)
      {
        var value := cl.component(Load(cl, source + component * unit, unit), a.Type);
        bytes := bytes + FloatBytes(value);
      }
    } else {
      bytes := Load(cl, source, unit * a.Size);
    }
  }

  /** A strided range: the source of each vertex is `stride` after the last. */
  method CaptureStrided(cl: Client, slot: nat, a: ClientArray, first: nat, picks: seq<nat>, out: array<byte>, destination: nat)
    requires ValidArray(a) && destination + |picks| * WireBytes(slot, a) <= out.Length
    requires forall v :: 0 <= v < |picks| ==> picks[v] == first + v
    modifies out
    ensures out[..destination + |picks| * WireBytes(slot, a)] == old(out[..destination]) + Packed(cl, slot, a, picks)
  {
    hide WireBytes, StrideOf, WireElement, ElementAt;
    var bytes, stride := WireBytes(slot, a), StrideOf(a);
    var source := a.Pointer + first * stride;
    var v := 0;
    while v < |picks|
      invariant 0 <= v <= |picks| && 0 <= v * bytes && destination + v * bytes <= out.Length
      invariant out[..destination + v * bytes] == old(out[..destination]) + Packed(cl, slot, a, picks[..v])
    {
      VertexStep(v, |picks|, bytes);
      RunAddress(a.Pointer, first, v, stride);
      PackedOneMore(cl, slot, a, picks, v);
      WireElementIs(cl, slot, a, picks[v]);
      var element := ElementBytesOf(cl, slot, a, source + v * stride);
      Write(out, destination + v * bytes, element);
      v := v + 1;
    }
    assert picks[..|picks|] == picks;
  }

  /** The general path: each vertex's index is fetched, through the fan if need be. */
  method CaptureIndexed(cl: Client, c: Capture, slot: nat, a: ClientArray, out: array<byte>, destination: nat)
    requires ValidCapture(c) && ValidArray(a) && destination + c.count * WireBytes(slot, a) <= out.Length
    modifies out
    ensures out[..destination + c.count * WireBytes(slot, a)]
            == old(out[..destination]) + Packed(cl, slot, a, Picks(c, c.count))
  {
    hide WireBytes, StrideOf, WireElement, ElementAt, Offset, IndexAt, Packed;
    var bytes, stride := WireBytes(slot, a), StrideOf(a);
    PackedNothing(cl, slot, a);
    var v := 0;
    while v < c.count
      invariant 0 <= v <= c.count && 0 <= v * bytes && destination + v * bytes <= out.Length
      invariant out[..destination + v * bytes] == old(out[..destination]) + Packed(cl, slot, a, Picks(c, v))
    {
      VertexStep(v, c.count, bytes);
      PickOneMore(cl, c, slot, a, v);
      var index := IndexAt(c, Offset(ChunkOf(c), v));
      WireElementIs(cl, slot, a, index);
      var element := ElementBytesOf(cl, slot, a, a.Pointer + index * stride);
      Write(out, destination + v * bytes, element);
      v := v + 1;
    }
  }

  lemma PackedNothing(cl: Client, slot: nat, a: ClientArray)
    requires ValidArray(a)
    ensures Packed(cl, slot, a, []) == []
  {
  }

  lemma PickOneMore(cl: Client, c: Capture, slot: nat, a: ClientArray, v: nat)
    requires ValidCapture(c) && ValidArray(a) && v < c.count
    ensures Packed(cl, slot, a, Picks(c, v + 1))
            == Packed(cl, slot, a, Picks(c, v)) + WireElement(cl, slot, a, IndexAt(c, Offset(ChunkOf(c), v)))
  {
    hide WireElement, IndexAt, Offset;
    assert Picks(c, v + 1)[..v] == Picks(c, v);
  }

  /** One iteration of CaptureSections: the section of array a at `destination`. */
  method CaptureArray(cl: Client, c: Capture, slot: nat, a: ClientArray, out: array<byte>, destination: nat)
    requires ValidCapture(c) && ValidArray(a) && destination + c.count * WireBytes(slot, a) <= out.Length
    modifies out
    ensures out[..destination + c.count * WireBytes(slot, a)]
            == old(out[..destination]) + Packed(cl, slot, a, Picks(c, c.count))
  {
    hide WireBytes, StrideOf, Packed, ValidArray, IndexAt, Offset;
    var bytes, stride := WireBytes(slot, a), StrideOf(a);
    if a.Bgra || WireType(slot, a) != a.Type || c.indices.Some? || c.fan {
      CaptureIndexed(cl, c, slot, a, out, destination);
    } else if stride == bytes {
      RunPicks(c);
      TightRun(cl, slot, a, c.first + c.at, c.count);
      Write(out, destination, Load(cl, a.Pointer + (c.first + c.at) * stride, c.count * bytes));
    } else {
      RunPicks(c);
      CaptureStrided(cl, slot, a, c.first + c.at, Picks(c, c.count), out, destination);
    }
  }

  lemma WireElementIs(cl: Client, slot: nat, a: ClientArray, index: nat)
    requires ValidArray(a)
    ensures WireElement(cl, slot, a, index) == ElementAt(cl, slot, a, a.Pointer + index * StrideOf(a))
  {
  }

  lemma VertexStep(v: nat, count: nat, b: nat)
    requires v < count
    ensures (v + 1) * b == v * b + b && v * b + b <= count * b
  {
    MulMonotone(v + 1, count, b);
  }

  lemma {:induction false} RunPicksUpTo(c: Capture, n: nat)
    requires ValidCapture(c) && c.indices.None? && !c.fan && n <= c.count
    ensures Picks(c, n) == seq(n, v requires 0 <= v => c.first + c.at + v)
  {
    if n > 0 {
      RunPicksUpTo(c, n - 1);
    }
  }

  lemma RunPicks(c: Capture)
    requires ValidCapture(c) && c.indices.None? && !c.fan
    ensures Picks(c, c.count) == seq(c.count, v requires 0 <= v => c.first + c.at + v)
  {
    RunPicksUpTo(c, c.count);
  }
}
