/**
 * An indexed draw of client arrays as a buffer draw without buffers
 * (guest/opengl/arrays.cpp, lines 966-1007 and 1200-1273; the layout is
 * DgRawBufferLayoutOf, guest/include/gl-arrays.h, lines 137-207): each array's
 * vertices low..high once, then the indices inline. Its host reads, index by
 * index, what the expansion of ClientDraw carries.
 */
module RangedDraw {
  import opened Words
  import opened ArrayLayout
  import opened DrawSplit
  import opened VertexCapture
  import opened ClientDraw

  const MAX_INDICES: nat := 262144
  const DESCRIPTOR_BYTES: nat := 128

  /** The record: base, count and number of client vertices, index size, masks and payload. */
  datatype Record = Record(mode: Mode, base: nat, count: nat, vertices: nat, indexSize: nat,
                           mask: set<nat>, generic: set<nat>, payload: seq<byte>)

  /** What its masks enable, in the attribute draw's thirty-two slots. */
  function EnabledBy(r: Record): set<nat> {
    EnabledIn(32, r.mask, r.generic)
  }

  /** All thirty-two slots, whatever the draw enables. */
  function FullFormat(arrays: seq<Option<ClientArray>>): Format
    requires |arrays| == 32
  {
    Format(arrays, (set i | 0 <= i < 15 && arrays[i].Some?) + {RAW}, set i | 16 <= i < 32 && arrays[i].Some? :: i - 16)
  }

  lemma FullFormatIsValid(arrays: seq<Option<ClientArray>>)
    requires ValidDrawArrays(arrays)
    ensures ValidFormat(FullFormat(arrays))
  {
    hide ValidArray;
    var f := FullFormat(arrays);
    forall g: nat | 16 + g < 32 && arrays[16 + g].Some?
      ensures g in f.generic
    {
      assert (16 + g) - 16 in f.generic;
    }
    forall i | 0 <= i < 32
      ensures arrays[i].Some? <==> i in AttribEnabled(f.mask, f.generic)
    {
      if i >= 16 {
        assert i in AttribEnabled(f.mask, f.generic) <==> i - 16 in f.generic;
      }
    }
  }

  /** Where the inline indices begin, and the padded length behind them. */
  function IndexOffset(s: seq<Section>, vertices: nat, size: nat): (o: nat)
    ensures EndBefore(DESCRIPTOR_BYTES, s, vertices, |s|) <= o
  {
    Align(EndBefore(DESCRIPTOR_BYTES, s, vertices, |s|), size)
  }

  function RangedLength(s: seq<Section>, vertices: nat, size: nat, count: nat): (n: nat)
    ensures var end := IndexOffset(s, vertices, size) + count * size; end <= n < end + 4 && n % 4 == 0
  {
    Align(IndexOffset(s, vertices, size) + count * size, 4)
  }

  /** DgRawBufferLayoutOf without buffers: the attribute draw's rules, a range within 32 bits, bounded indices. */
  predicate RangeAdmitted(f: Format, base: nat, vertices: nat, count: nat) {
    && AttribAdmitted(f.mask, f.generic, vertices, DescriptorsOf(f.arrays))
    && 0 < vertices && base + vertices <= WORD && count <= MAX_INDICES
  }

  lemma {:induction false} LittleOfValue(s: seq<byte>, at: nat, n: nat)
    requires at + n <= |s|
    ensures Little(Value(s, at, n), n) == s[at..at + n]
    decreases n
  {
    if n > 0 {
      LittleOfValue(s, at + 1, n - 1);
      var rest := Value(s, at + 1, n - 1);
      assert (s[at] + 256 * rest) % 256 == s[at] && (s[at] + 256 * rest) / 256 == rest;
      assert s[at..at + n] == [s[at]] + s[at + 1..at + n];
    }
  }

  lemma {:induction false} ValueOfLittle(a: seq<byte>, x: nat, n: nat, b: seq<byte>)
    requires n in {1, 2, 4} && x < (if n == 1 then 256 else if n == 2 then 65536 else WORD)
    ensures Value(a + Little(x, n) + b, |a|, n) == x
  {
    var s := a + Little(x, n) + b;
    if n == 4 {
      LittleValue(a, x, b);
    } else if n == 1 {
      assert Value(s, |a| + 1, 0) == 0;
    } else {
      assert Little(x, 2) == [x % 256] + Little(x / 256, 1) && Little(x / 256, 1) == [x / 256 % 256] + Little(x / 65536, 0);
      assert Value(s, |a| + 1, 1) == s[|a| + 1] + 256 * Value(s, |a| + 2, 0);
    }
  }

  /** `v < low ? (T)low : v > high ? (T)high : v` in an index type of `size` bytes. */
  function Clamped(v: nat, low: nat, high: nat): nat {
    if v < low then low else if v > high then high else v
  }

  function ClampedBytes(indices: seq<byte>, size: nat, low: nat, high: nat, n: nat): (r: seq<byte>)
    requires n * size <= |indices|
    ensures |r| == n * size
  {
    if n == 0 then []
    else
      OffsetWithin(n - 1, size);
      ClampedBytes(indices, size, low, high, n - 1) + Little(Clamped(Value(indices, (n - 1) * size, size), low, high), size)
  }

  /**
   * CopyIndices: whatever the client memory holds by now, every index written
   * lies in low..high.
   */
  method CopyIndices(out: array<byte>, at: nat, indices: seq<byte>, size: nat, count: nat, low: nat, high: nat)
    requires count * size == |indices| && at + |indices| <= out.Length
    modifies out
    ensures out[..at + |indices|] == old(out[..at]) + ClampedBytes(indices, size, low, high, count)
  {
    hide Value, Little, ClampedBytes, Clamped;
    NothingClamped(indices, size, low, high);
    for i := 0 to count
      invariant 0 <= i * size && i * size <= |indices|
      invariant out[..at + i * size] == old(out[..at]) + ClampedBytes(indices, size, low, high, i)
    {
      OffsetWithin(i, size);
      MulMonotone(i + 1, count, size);
      OneMoreClamped(indices, size, low, high, i);
      var v := Value(indices, i * size, size);
      Write(out, at + i * size, Little(Clamped(v, low, high), size));
    }
  }

  lemma NothingClamped(indices: seq<byte>, size: nat, low: nat, high: nat)
    ensures 0 * size == 0 && ClampedBytes(indices, size, low, high, 0) == []
  {
  }

  lemma OneMoreClamped(indices: seq<byte>, size: nat, low: nat, high: nat, n: nat)
    requires (n + 1) * size <= |indices| && (n + 1) * size == n * size + size
    ensures ClampedBytes(indices, size, low, high, n + 1)
            == ClampedBytes(indices, size, low, high, n) + Little(Clamped(Value(indices, n * size, size), low, high), size)
  {
    hide Value, Little, Clamped;
  }

  /** The j-th copied index, read back. */
  lemma {:induction false} ClampedAt(indices: seq<byte>, size: nat, low: nat, high: nat, n: nat, j: nat, a: seq<byte>, b: seq<byte>)
    requires n * size <= |indices| && j < n && size in {1, 2, 4}
    requires low <= high < (if size == 1 then 256 else if size == 2 then 65536 else WORD)
    ensures 0 <= j * size && j * size + size <= n * size
    ensures Value(a + ClampedBytes(indices, size, low, high, n) + b, |a| + j * size, size)
            == Clamped(Value(indices, j * size, size), low, high)
  {
    hide Value, Little;
    OffsetWithin(n - 1, size);
    var before := ClampedBytes(indices, size, low, high, n - 1);
    var last := Little(Clamped(Value(indices, (n - 1) * size, size), low, high), size);
    if j == n - 1 {
      assert a + ClampedBytes(indices, size, low, high, n) + b == (a + before) + last + b;
      ValueOfLittle(a + before, Clamped(Value(indices, j * size, size), low, high), size, b);
    } else {
      ClampedAt(indices, size, low, high, n - 1, j, a, last + b);
      assert a + ClampedBytes(indices, size, low, high, n) + b == a + before + (last + b);
    }
  }

  /** Clamping is the identity on indices that lie within the scanned bounds. */
  lemma {:induction false} ClampingScannedIsIdentity(draw: Capture, count: nat, n: nat)
    requires draw.indices.Some? && IndicesCover(draw, count) && n <= count
    ensures 0 <= n * draw.index_size <= |draw.indices.value|
    ensures ClampedBytes(draw.indices.value, draw.index_size, Lowest(draw, count), Highest(draw, count), n)
            == draw.indices.value[..n * draw.index_size]
  {
    hide Value, Little, Lowest, Highest;
    MulMonotone(n, count, draw.index_size);
    if n > 0 {
      OffsetWithin(n - 1, draw.index_size);
      ClampingScannedIsIdentity(draw, count, n - 1);
      WithinBounds(draw, count, n - 1);
      LittleOfValue(draw.indices.value, (n - 1) * draw.index_size, draw.index_size);
      assert n * draw.index_size == (n - 1) * draw.index_size + draw.index_size;
      assert draw.indices.value[..n * draw.index_size]
             == draw.indices.value[..(n - 1) * draw.index_size] + draw.indices.value[(n - 1) * draw.index_size..n * draw.index_size];
    }
  }

  // ---- The record ----

  /** One copy of the `vertices` client vertices that start at `base`. */
  function RangeCapture(f: Format, base: nat, vertices: nat): Capture {
    Capture(f.arrays, None, 0, base, 0, vertices, false)
  }

  /** What CaptureBuffer writes: descriptors, sections, then the indices as clamped while copied. */
  function RangedPayload(cl: Client, f: Format, base: nat, vertices: nat, indices: seq<byte>, size: nat, count: nat): (r: seq<byte>)
    requires ValidArrays(f.arrays) && |f.arrays| == 32 && vertices > 0 && count * size == |indices|
    ensures |r| == RangedLength(SectionsOf(f.arrays), vertices, size, count)
  {
    var s := SectionsOf(f.arrays);
    var built := BuiltOf(cl, RangeCapture(f, base, vertices));
    var o := IndexOffset(s, vertices, size);
    built + Zeros(o - |built|) + ClampedBytes(indices, size, base, base + vertices - 1, count)
    + Zeros(RangedLength(s, vertices, size, count) - o - count * size)
  }

  /** The host's reading of inline index j. */
  function HostIndex(enabled: set<nat>, r: Record, j: nat): nat
    requires DESCRIPTOR_BYTES <= |r.payload|
  {
    var o := IndexOffset(HostSections(enabled, r.payload, 32), r.vertices, r.indexSize) + j * r.indexSize;
    if 0 <= o && o + r.indexSize <= |r.payload| then Value(r.payload, o, r.indexSize) else 0
  }

  ghost predicate IndexWidth(size: nat, high: nat) {
    size in {1, 2, 4} && high < (if size == 1 then 256 else if size == 2 then 65536 else WORD)
  }

  lemma RangeIsValid(f: Format, base: nat, vertices: nat)
    requires ValidArrays(f.arrays)
    ensures ValidCapture(RangeCapture(f, base, vertices))
  {
  }

  /** Index j of the record is the clamped index j of the client. */
  lemma IndexReadBack(cl: Client, f: Format, base: nat, vertices: nat, indices: seq<byte>, size: nat, count: nat, j: nat)
    requires ValidArrays(f.arrays) && |f.arrays| == 32 && vertices > 0 && count * size == |indices| && j < count
    requires IndexWidth(size, base + vertices - 1)
    ensures var p, o := RangedPayload(cl, f, base, vertices, indices, size, count), IndexOffset(SectionsOf(f.arrays), vertices, size);
            && 0 <= j * size && o + j * size + size <= |p| && j * size + size <= |indices|
            && Value(p, o + j * size, size) == Clamped(Value(indices, j * size, size), base, base + vertices - 1)
  {
    hide SectionsOf, BuiltOf, Value, ClampedBytes, RangedLength, IndexOffset;
    RangeIsValid(f, base, vertices);
    var s := SectionsOf(f.arrays);
    var built, o := BuiltOf(cl, RangeCapture(f, base, vertices)), IndexOffset(s, vertices, size);
    var a := built + Zeros(o - |built|);
    ClampedAt(indices, size, base, base + vertices - 1, count, j, a, Zeros(RangedLength(s, vertices, size, count) - o - count * size));
  }

  /** The host's vertex for index j: its own element of the section, inside the record. */
  lemma ElementReadBack(cl: Client, f: Format, r: Record, indices: seq<byte>, j: nat, slot: nat)
    requires ValidArrays(f.arrays) && |f.arrays| == 32 && r.vertices > 0 && r.count * r.indexSize == |indices| && j < r.count
    requires IndexWidth(r.indexSize, r.base + r.vertices - 1) && slot < 32 && f.arrays[slot].Some?
    requires r.payload == RangedPayload(cl, f, r.base, r.vertices, indices, r.indexSize, r.count)
    ensures DESCRIPTOR_BYTES <= |r.payload|
    ensures var p := HostIndex(EnabledSlots(f.arrays), r, j);
            && 0 <= j * r.indexSize && j * r.indexSize + r.indexSize <= |indices|
            && p == Clamped(Value(indices, j * r.indexSize, r.indexSize), r.base, r.base + r.vertices - 1)
            && r.base <= p < r.base + r.vertices
            && HostElement(EnabledSlots(f.arrays), r.payload, 32, r.vertices, slot, p - r.base)
               == WireElement(cl, slot, f.arrays[slot].value, p)
  {
    hide SectionsOf, BuiltOf, Value, RangedPayload, RangedLength, IndexOffset, HostElement, HostSections, WireElement, ValidCapture;
    RangeIsValid(f, r.base, r.vertices);
    var c := RangeCapture(f, r.base, r.vertices);
    var built := BuiltOf(cl, c);
    IndexReadBack(cl, f, r.base, r.vertices, indices, r.indexSize, r.count, j);
    RangedPayloadIs(cl, f, r.base, r.vertices, indices, r.indexSize, r.count);
    SectionsRoundTrip(cl, c, r.payload, slot, 0);
    var p := HostIndex(EnabledSlots(f.arrays), r, j);
    SectionsRoundTrip(cl, c, r.payload, slot, p - r.base);
    PickAt(c, c.count, p - r.base);
  }

  lemma RangedPayloadIs(cl: Client, f: Format, base: nat, vertices: nat, indices: seq<byte>, size: nat, count: nat)
    requires ValidArrays(f.arrays) && |f.arrays| == 32 && vertices > 0 && count * size == |indices|
    ensures ValidCapture(RangeCapture(f, base, vertices))
    ensures StartsWith(RangedPayload(cl, f, base, vertices, indices, size, count), BuiltOf(cl, RangeCapture(f, base, vertices)))
    ensures DESCRIPTOR_BYTES <= |RangedPayload(cl, f, base, vertices, indices, size, count)|
  {
    hide BuiltOf, ClampedBytes, Align, SectionsOf;
    RangeIsValid(f, base, vertices);
  }

  /** At index j the host reads the very vertex, attribute byte by attribute byte, that the draw names there. */
  ghost predicate RefinesAt(cl: Client, draw: Capture, r: Record, j: nat, slot: nat)
    requires |r.payload| >= DESCRIPTOR_BYTES && |draw.arrays| == 32 && slot < 32 && draw.arrays[slot].Some?
    requires ValidArrays(draw.arrays)
  {
    var p := HostIndex(EnabledBy(r), r, j);
    && (draw.indices.Some? ==> (j + 1) * draw.index_size <= |draw.indices.value|)
    && r.base <= p < r.base + r.vertices && p == IndexAt(draw, j)
    && HostElement(EnabledBy(r), r.payload, 32, r.vertices, slot, p - r.base)
       == WireElement(cl, slot, draw.arrays[slot].value, p)
  }

  ghost predicate Refines(cl: Client, draw: Capture, r: Record) {
    && |r.payload| >= DESCRIPTOR_BYTES && |draw.arrays| == 32 && ValidArrays(draw.arrays) && Masks(draw.arrays, r.mask, r.generic)
    && forall j, slot :: 0 <= j < r.count && 0 <= slot < 32 && draw.arrays[slot].Some? ==> RefinesAt(cl, draw, r, j, slot)
  }

  /** The record of a draw's scanned range. */
  ghost predicate Describes(cl: Client, draw: Capture, r: Record) {
    && draw.indices.Some? && IndicesCover(draw, r.count) && ValidArrays(draw.arrays) && |draw.arrays| == 32
    && Masks(draw.arrays, r.mask, r.generic)
    && r.indexSize == draw.index_size && r.base == Lowest(draw, r.count)
    && r.vertices > 0 && r.base + r.vertices - 1 == Highest(draw, r.count) && IndexWidth(r.indexSize, r.base + r.vertices - 1)
    && r.payload == RangedPayload(cl, Format(draw.arrays, r.mask, r.generic), r.base, r.vertices, draw.indices.value,
                                  r.indexSize, r.count)
  }

  lemma IndexRefines(cl: Client, draw: Capture, r: Record, j: nat, slot: nat)
    requires Describes(cl, draw, r) && j < r.count && slot < 32 && draw.arrays[slot].Some?
    ensures DESCRIPTOR_BYTES <= |r.payload| && RefinesAt(cl, draw, r, j, slot)
  {
    hide Lowest, Highest, HostIndex, HostElement, WireElement, RangedPayload, Value, EnabledSlots, Masks, EnabledIn;
    EnabledAreSlots(draw.arrays, r.mask, r.generic);
    var f := Format(draw.arrays, r.mask, r.generic);
    WithinBounds(draw, r.count, j);
    ElementReadBack(cl, f, r, draw.indices.value, j, slot);
  }

  /** The ranged record means, index by index, what the draw means. */
  lemma RecordRefines(cl: Client, draw: Capture, r: Record)
    requires Describes(cl, draw, r)
    ensures Refines(cl, draw, r)
  {
    hide Lowest, Highest, RefinesAt, BuiltOf;
    RangedPayloadIs(cl, Format(draw.arrays, r.mask, r.generic), r.base, r.vertices, draw.indices.value, r.indexSize, r.count);
    forall j, slot | 0 <= j < r.count && 0 <= slot < 32 && draw.arrays[slot].Some?
      ensures RefinesAt(cl, draw, r, j, slot)
    {
      IndexRefines(cl, draw, r, j, slot);
    }
  }

  /** Record and expansion agree: a vertex of any packet is what the record gives for its index. */
  lemma RecordAgreesWithExpansion(cl: Client, draw: Capture, r: Record, small: Capture, p: Packet, c: Chunk, slot: nat, v: nat)
    requires Refines(cl, draw, r) && draw.indices == small.indices && draw.index_size == small.index_size && draw.first == small.first
    requires draw.indices.Some? && InDraw(c, r.count) && Carries(cl, small, p, c)
    requires v < c.n && slot < |small.arrays| && slot < 32 && small.arrays[slot].Some? && draw.arrays[slot] == small.arrays[slot]
    ensures RefinesAt(cl, draw, r, Offset(c, v), slot)
    ensures HostElement(Enabled(p), p.payload, p.slots, p.count, slot, v)
            == HostElement(EnabledBy(r), r.payload, 32, r.vertices, slot, HostIndex(EnabledBy(r), r, Offset(c, v)) - r.base)
  {
    hide HostElement, HostIndex, WireElement, EnabledIn;
    OffsetInDraw(c, r.count, v);
    assert RefinesAt(cl, draw, r, Offset(c, v), slot);
    SameIndex(draw, small, Offset(c, v));
  }

  lemma OffsetInDraw(c: Chunk, count: nat, v: nat)
    requires InDraw(c, count) && v < c.n
    ensures Offset(c, v) < count
  {
  }

  /** Every inline index names a vertex of the client sections. */
  ghost predicate Inside(r: Record) {
    && DESCRIPTOR_BYTES <= |r.payload|
    && forall j :: 0 <= j < r.count ==> r.base <= HostIndex(EnabledBy(r), r, j) < r.base + r.vertices
  }

  lemma RecordIsInside(cl: Client, f: Format, r: Record, now: seq<byte>)
    requires ValidDrawArrays(f.arrays) && r.vertices > 0 && r.count * r.indexSize == |now|
    requires IndexWidth(r.indexSize, r.base + r.vertices - 1)
    requires r.payload == RangedPayload(cl, f, r.base, r.vertices, now, r.indexSize, r.count) && Masks(f.arrays, r.mask, r.generic)
    ensures Inside(r)
  {
    hide HostIndex, RangedPayload, Value, HostElement, WireElement, BuiltOf, EnabledSlots, Masks, EnabledIn;
    EnabledAreSlots(f.arrays, r.mask, r.generic);
    var slot := if f.arrays[0].Some? then 0 else 16;
    RangedPayloadIs(cl, f, r.base, r.vertices, now, r.indexSize, r.count);
    forall j | 0 <= j < r.count
      ensures r.base <= HostIndex(EnabledBy(r), r, j) < r.base + r.vertices
    {
      ElementReadBack(cl, f, r, now, j, slot);
    }
  }

  // ---- The method ----

  /**
   * CaptureBuffer without references. `now` is the client's index memory as it
   * is read a second time.
   */
  method CaptureBuffer(cl: Client, f: Format, base: nat, vertices: nat, now: seq<byte>, size: nat, count: nat,
                       offsets: seq<u32>, indexOffset: nat, out: array<byte>)
    requires ValidArrays(f.arrays) && |f.arrays| == 32 && |offsets| == 32 && vertices > 0 && count * size == |now|
    requires forall i :: 0 <= i < 32 && f.arrays[i].Some? ==> offsets[i] == OffsetOf(DESCRIPTOR_BYTES, SectionsOf(f.arrays), vertices, i)
    requires indexOffset == IndexOffset(SectionsOf(f.arrays), vertices, size)
    requires out.Length == RangedLength(SectionsOf(f.arrays), vertices, size, count)
    modifies out
    ensures out[..] == RangedPayload(cl, f, base, vertices, now, size, count)
  {
    hide SectionsOf, DescriptorWords, EndBefore, OffsetOf, ValidArrays, Picks, ValidCapture, Built, ClampedBytes, RangedLength, IndexOffset;
    RangeIsValid(f, base, vertices);
    RangeEnds(cl, f, base, vertices, size, count);
    var c := RangeCapture(f, base, vertices);
    ghost var words := DescriptorWords(f.arrays, 32);
    Write(out, 0, DescriptorWords(f.arrays, 32));
    assert out[..DESCRIPTOR_BYTES] == words;
    var end := CaptureSections(cl, c, offsets, out, DESCRIPTOR_BYTES);
    CaptureTail(now, size, count, base, base + vertices - 1, out, end, indexOffset);
    assert out[..] == out[..out.Length];
  }

  lemma RangeEnds(cl: Client, f: Format, base: nat, vertices: nat, size: nat, count: nat)
    requires ValidArrays(f.arrays) && |f.arrays| == 32
    ensures ValidCapture(RangeCapture(f, base, vertices)) && |BuiltOf(cl, RangeCapture(f, base, vertices))| <= IndexOffset(SectionsOf(f.arrays), vertices, size)
    ensures IndexOffset(SectionsOf(f.arrays), vertices, size) + count * size <= RangedLength(SectionsOf(f.arrays), vertices, size, count)
  {
    RangeIsValid(f, base, vertices);
  }

  /** The gap, the indices as they are read now, clamped, and the padding. */
  method CaptureTail(now: seq<byte>, size: nat, count: nat, low: nat, high: nat, out: array<byte>, end: nat, indexOffset: nat)
    requires end <= indexOffset && indexOffset + count * size <= out.Length && count * size == |now| && low <= high
    modifies out
    ensures out[..out.Length] == old(out[..end]) + Zeros(indexOffset - end) + ClampedBytes(now, size, low, high, count)
                                 + Zeros(out.Length - indexOffset - count * size)
  {
    hide ClampedBytes;
    Write(out, end, Zeros(indexOffset - end));
    CopyIndices(out, indexOffset, now, size, count, low, high);
    var last := indexOffset + count * size;
    Write(out, last, Zeros(out.Length - last));
  }

  /** When RangedDraw takes the draw from ClientDraw. */
  ghost predicate Chosen(f: Format, draw: Capture, count: nat, limit: nat)
    requires IndicesCover(draw, count) && |f.arrays| == 32
  {
    var low, high := Lowest(draw, count), Highest(draw, count);
    && count <= MAX_INDICES && low <= high && high - low < MAX_VERTICES
    && (forall i :: 0 <= i < 32 && f.arrays[i].Some? ==> InRange(f.arrays[i].value, high))
    && (high - low + 1) * VertexBytes(SectionsOf(f.arrays), 32) + count * draw.index_size
       <= count * VertexBytes(SectionsOf(f.arrays), 32)
    && RangeAdmitted(f, low, high - low + 1, count)
    && RangedLength(SectionsOf(f.arrays), high - low + 1, draw.index_size, count) <= limit
  }

  lemma BoundsOrdered(draw: Capture, count: nat)
    requires count > 0 && IndicesCover(draw, count)
    ensures Lowest(draw, count) <= Highest(draw, count)
  {
    WithinBounds(draw, count, 0);
  }

  /** RangedDraw: the record, or None when the draw remains ClientDraw's. */
  method Ranged(cl: Client, available: bool, compiling: bool, mode: Mode, count: u32, elements: Option<Elements>, now: seq<byte>,
                indexSize: nat, arrays: seq<Option<ClientArray>>, limit: u32)
    returns (record: Option<Record>)
    requires ValidDrawArrays(arrays) && count > 0 && indexSize in {1, 2, 4}
    requires !BadPointer(elements, count, indexSize) ==> IndicesCover(WholeDraw(FullFormat(arrays), BytesOf(elements), indexSize, 0), count)
    requires |now| == count * indexSize
    ensures var draw := WholeDraw(FullFormat(arrays), BytesOf(elements), indexSize, 0);
            && (record.Some? <==> available && !compiling && elements.Some? && !BadPointer(elements, count, indexSize)
                                  && Chosen(FullFormat(arrays), draw, count, limit))
            && (record.Some? ==> |record.value.payload| <= limit && record.value.mode == mode && record.value.count == count)
            && (record.Some? ==> Inside(record.value) && Masks(arrays, record.value.mask, record.value.generic))
            && (record.Some? && now == elements.value.bytes ==> Refines(cl, draw, record.value) && RecordShows(cl, arrays, elements, indexSize, record.value))
  {
    hide InRange, Lowest, Highest, FullFormat, Refines, RecordShows, Inside, VertexBytes, AttribAdmitted, ValidFormat, RangedPayload, IndicesCover;
    if !available || compiling || elements.None? || count > MAX_INDICES || BadPointer(elements, count, indexSize) {
      return None;
    }
    var f := FullFormat(arrays);
    FullFormatIs(arrays);
    var draw := WholeDraw(f, BytesOf(elements), indexSize, 0);
    var low, high := IndexBounds(draw, count);
    BoundsOrdered(draw, count);
    if high - low >= MAX_VERTICES {
      return None;
    }
    var vertices := high - low + 1;
    for i := 0 to 32
      invariant forall k :: 0 <= k < i && arrays[k].Some? ==> InRange(arrays[k].value, high)
    {
      if arrays[i].Some? && !InRange(arrays[i].value, high) {
        return None;
      }
    }
    record := RangedRecord(cl, f, draw, mode, count, low, vertices, now, limit);
    if record.Some? && now == elements.value.bytes {
      RefinesShows(cl, arrays, elements, indexSize, draw, record.value);
    }
  }

  /** Index by index the host reads, through the record's own masks, the vertex the caller's index names. */
  ghost predicate RecordShows(cl: Client, arrays: seq<Option<ClientArray>>, elements: Option<Elements>, indexSize: nat, r: Record) {
    && DESCRIPTOR_BYTES <= |r.payload|
    && forall j: nat, slot, vertex: nat :: 0 <= j < r.count && 0 <= slot < |arrays| && arrays[slot].Some? && IsVertex(elements, indexSize, 0, j, vertex) ==>
         && slot < 32 && ValidArray(arrays[slot].value) && slot in EnabledBy(r)
         && r.base <= vertex == HostIndex(EnabledBy(r), r, j)
         && HostElement(EnabledBy(r), r.payload, 32, r.vertices, slot, vertex - r.base) == WireElement(cl, slot, arrays[slot].value, vertex)
  }

  lemma RefinesShows(cl: Client, arrays: seq<Option<ClientArray>>, elements: Option<Elements>, indexSize: nat, draw: Capture, r: Record)
    requires Refines(cl, draw, r) && draw.arrays == arrays && draw.indices == BytesOf(elements) && draw.index_size == indexSize && draw.first == 0
    ensures RecordShows(cl, arrays, elements, indexSize, r)
  {
    hide HostIndex, HostElement, WireElement, ValidArray, Value, EnabledIn, Masks;
    EnabledAreSlots(arrays, r.mask, r.generic);
    forall j: nat, slot, vertex: nat | 0 <= j < r.count && 0 <= slot < |arrays| && arrays[slot].Some? && IsVertex(elements, indexSize, 0, j, vertex)
      ensures slot in EnabledBy(r) && r.base <= vertex == HostIndex(EnabledBy(r), r, j)
              && HostElement(EnabledBy(r), r.payload, 32, r.vertices, slot, vertex - r.base) == WireElement(cl, slot, arrays[slot].value, vertex)
    {
      assert RefinesAt(cl, draw, r, j, slot);
      OffsetWithin(j, indexSize);
    }
  }

  lemma FullFormatIs(arrays: seq<Option<ClientArray>>)
    requires ValidDrawArrays(arrays)
    ensures ValidFormat(FullFormat(arrays)) && FullFormat(arrays).arrays == arrays
  {
    FullFormatIsValid(arrays);
  }

  method RangedRecord(cl: Client, f: Format, draw: Capture, mode: Mode, count: u32, low: nat, vertices: nat, now: seq<byte>, limit: u32)
    returns (record: Option<Record>)
    requires ValidFormat(f) && ValidDrawArrays(f.arrays) && draw.arrays == f.arrays && draw.indices.Some? && IndicesCover(draw, count)
    requires count > 0 && count <= MAX_INDICES && draw.index_size in {1, 2, 4} && |now| == count * draw.index_size
    requires low == Lowest(draw, count) && 0 < vertices <= MAX_VERTICES && low + vertices - 1 == Highest(draw, count)
    ensures record.Some? <==>
              vertices * VertexBytes(SectionsOf(f.arrays), 32) + count * draw.index_size <= count * VertexBytes(SectionsOf(f.arrays), 32)
              && RangeAdmitted(f, low, vertices, count)
              && RangedLength(SectionsOf(f.arrays), vertices, draw.index_size, count) <= limit
    ensures record.Some? ==> |record.value.payload| <= limit && record.value.mode == mode && record.value.count == count
    ensures record.Some? ==> Inside(record.value) && Masks(f.arrays, record.value.mask, record.value.generic)
    ensures record.Some? && now == draw.indices.value ==> Refines(cl, draw, record.value)
  {
    hide Lowest, Highest, Inside, Refines, VertexBytes, AttribAdmitted, SectionsOf, RangedPayload, IndicesCover, EndBefore, OffsetOf, Align;
    var vertexBytes := VertexBytes(SectionsOf(f.arrays), 32);
    if vertices * vertexBytes + count * draw.index_size > count * vertexBytes {
      return None;
    }
    if low + vertices > WORD {
      return None;
    }
    var ok, offsets, length := CaptureLayout(f, vertices);
    if !ok {
      return None;
    }
    var indexOffset := IndexOffset(SectionsOf(f.arrays), vertices, draw.index_size);
    var bytes := RangedLength(SectionsOf(f.arrays), vertices, draw.index_size, count);
    if bytes > limit {
      return None;
    }
    var out := new byte[bytes];
    CaptureBuffer(cl, f, low, vertices, now, draw.index_size, count, offsets, indexOffset, out);
    var r := Record(mode, low, count, vertices, draw.index_size, f.mask, f.generic, out[..]);
    IndexesFit(draw, count);
    RecordIsInside(cl, f, r, now);
    if now == draw.indices.value {
      RecordRefines(cl, draw, r);
    }
    return Some(r);
  }

  lemma IndexesFit(draw: Capture, count: nat)
    requires draw.indices.Some? && IndicesCover(draw, count) && draw.index_size in {1, 2, 4}
    ensures IndexWidth(draw.index_size, Highest(draw, count))
  {
    HighestFits(draw, count);
  }

  lemma {:induction false} HighestFits(draw: Capture, n: nat)
    requires draw.indices.Some? && n * draw.index_size <= |draw.indices.value| && draw.index_size in {1, 2, 4}
    ensures IndexWidth(draw.index_size, Highest(draw, n))
  {
    if n > 0 {
      OffsetWithin(n - 1, draw.index_size);
      HighestFits(draw, n - 1);
      ValueFits(draw.indices.value, (n - 1) * draw.index_size, draw.index_size);
    }
  }

  lemma ValueFits(s: seq<byte>, at: nat, n: nat)
    requires at + n <= |s| && n in {1, 2, 4}
    ensures IndexWidth(n, Value(s, at, n))
  {
    if n == 2 {
      assert Value(s, at + 1, 1) == s[at + 1] + 256 * Value(s, at + 2, 0);
    } else if n == 4 {
      assert Value(s, at + 3, 1) == s[at + 3] + 256 * Value(s, at + 4, 0);
      assert Value(s, at + 2, 2) == s[at + 2] + 256 * Value(s, at + 3, 1);
      assert Value(s, at + 1, 3) == s[at + 1] + 256 * Value(s, at + 2, 2);
    }
  }
}
