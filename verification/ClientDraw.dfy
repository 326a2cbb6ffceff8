/**
 * A client draw becomes packed packets (guest/opengl/arrays.cpp, lines 766-955)
 * that carry, vertex by vertex, what the unsplit draw would read.
 */
module ClientDraw {
  import opened Words
  import opened ArrayLayout
  import opened DrawSplit
  import opened DataRecord
  import opened VertexCapture

  // ---- Descriptor words ----

  function Little(x: nat, n: nat): (r: seq<byte>)
    ensures |r| == n
    decreases n
  {
    if n == 0 then [] else [x % 256] + Little(x / 256, n - 1)
  }

  lemma {:induction false} LittleValue(a: seq<byte>, x: nat, b: seq<byte>)
    requires x < WORD
    ensures Value(a + Little(x, 4) + b, |a|, 4) == x
  {
    var s := a + Little(x, 4) + b;
    assert Little(x, 4) == [x % 256, x / 256 % 256, x / 65536 % 256, x / 0x1000000 % 256] by {
      assert Little(x / 0x1000000, 1) == [x / 0x1000000 % 256] + Little(x / 0x1000000 / 256, 0);
      assert Little(x / 65536, 2) == [x / 65536 % 256] + Little(x / 65536 / 256, 1);
      assert Little(x / 256, 3) == [x / 256 % 256] + Little(x / 256 / 256, 2);
    }
    assert Value(s, |a| + 3, 1) == s[|a| + 3] + 256 * Value(s, |a| + 4, 0);
    assert Value(s, |a| + 2, 2) == s[|a| + 2] + 256 * Value(s, |a| + 3, 1);
    assert Value(s, |a| + 1, 3) == s[|a| + 1] + 256 * Value(s, |a| + 2, 2);
  }

  function SlotWord(arrays: seq<Option<ClientArray>>, i: nat): nat
    requires i < |arrays|
  {
    if arrays[i].Some? then Descriptor(i, arrays[i].value) else 0
  }

  /** The descriptor words a payload begins with. */
  function DescriptorWords(arrays: seq<Option<ClientArray>>, n: nat): (r: seq<byte>)
    requires n <= |arrays|
    ensures |r| == 4 * n
  {
    if n == 0 then [] else DescriptorWords(arrays, n - 1) + Little(SlotWord(arrays, n - 1), 4)
  }

  lemma {:induction false} WordAt(arrays: seq<Option<ClientArray>>, n: nat, i: nat, rest: seq<byte>)
    requires i < n <= |arrays| && ValidArrays(arrays)
    ensures Value(DescriptorWords(arrays, n) + rest, 4 * i, 4) == SlotWord(arrays, i) < WORD
  {
    hide Little, Value, Descriptor;
    if arrays[i].Some? {
      DescriptorIsSection(i, arrays[i].value);
    }
    if i == n - 1 {
      LittleValue(DescriptorWords(arrays, i), SlotWord(arrays, i), rest);
    } else {
      var last := Little(SlotWord(arrays, n - 1), 4);
      assert DescriptorWords(arrays, n) + rest == DescriptorWords(arrays, n - 1) + (last + rest);
      WordAt(arrays, n - 1, i, last + rest);
    }
  }

  // ---- Capturing a packet ----

  /** The payload CaptureVertices promises: descriptors, sections, zero gaps and padding. */
  function Payload(cl: Client, c: Capture): (r: seq<byte>)
    requires ValidCapture(c)
    ensures |r| == Length(4 * |c.arrays|, SectionsOf(c.arrays), c.count)
  {
    var built := Built(cl, c.arrays, Picks(c, c.count), DescriptorWords(c.arrays, |c.arrays|), |c.arrays|);
    built + Zeros(Length(4 * |c.arrays|, SectionsOf(c.arrays), c.count) - |built|)
  }

  lemma SectionsWellFormed(arrays: seq<Option<ClientArray>>)
    requires ValidArrays(arrays)
    ensures AllWellFormed(SectionsOf(arrays))
  {
    forall i | 0 <= i < |arrays|
      ensures WellFormed(SectionsOf(arrays)[i])
    {
      if arrays[i].Some? {
        DescriptorIsSection(i, arrays[i].value);
      }
    }
  }

  /** One slot of CaptureSections: the gap from `end` to its offset, then the section. */
  method CaptureSlot(cl: Client, c: Capture, slot: nat, a: ClientArray, out: array<byte>, end: nat, offset: nat)
    returns (next: nat)
    requires ValidCapture(c) && ValidArray(a) && end <= offset && offset + c.count * WireBytes(slot, a) <= out.Length
    modifies out
    ensures next == offset + c.count * WireBytes(slot, a)
    ensures out[..next] == old(out[..end]) + Zeros(offset - end) + Packed(cl, slot, a, Picks(c, c.count))
  {
    hide WireBytes, Packed, ValidArray, Picks, ValidCapture;
    ghost var before := out[..end];
    if offset != end {
      Write(out, end, Zeros(offset - end));
    }
    assert out[..offset] == before + Zeros(offset - end);
    CaptureArray(cl, c, slot, a, out, offset);
    next := offset + c.count * WireBytes(slot, a);
  }

  lemma BuiltStep(cl: Client, c: Capture, prefix: seq<byte>, i: nat)
    requires ValidCapture(c) && i < |c.arrays|
    ensures var s, picks := SectionsOf(c.arrays), Picks(c, c.count);
            var end, next := EndBefore(|prefix|, s, c.count, i), EndBefore(|prefix|, s, c.count, i + 1);
            var offset := OffsetOf(|prefix|, s, c.count, i);
            && end <= next <= EndBefore(|prefix|, s, c.count, |s|)
            && (if c.arrays[i].None?
                then next == end && Built(cl, c.arrays, picks, prefix, i + 1) == Built(cl, c.arrays, picks, prefix, i)
                else ValidArray(c.arrays[i].value) && end <= offset
                     && next == offset + c.count * WireBytes(i, c.arrays[i].value)
                     && Built(cl, c.arrays, picks, prefix, i + 1)
                        == Built(cl, c.arrays, picks, prefix, i) + Zeros(offset - end) + Packed(cl, i, c.arrays[i].value, picks))
  {
    hide SectionsOf, WireBytes, Packed, Align, ValidArray, SectionBytes;
    EndsGrow(|prefix|, SectionsOf(c.arrays), c.count, i + 1, |c.arrays|);
    SlotOf(c.arrays, i);
    if c.arrays[i].Some? {
      SectionLength(i, c.arrays[i].value, c.count);
    }
  }

  /** CaptureSections: the enabled slots' sections, with zeros in between, from `end` on. */
  method CaptureSections(cl: Client, c: Capture, offsets: seq<u32>, out: array<byte>, start: nat) returns (end: nat)
    requires ValidCapture(c) && |offsets| == |c.arrays| && start <= out.Length
    requires EndBefore(start, SectionsOf(c.arrays), c.count, |c.arrays|) <= out.Length
    requires forall i :: 0 <= i < |offsets| && c.arrays[i].Some? ==> offsets[i] == OffsetOf(start, SectionsOf(c.arrays), c.count, i)
    modifies out
    ensures end == EndBefore(start, SectionsOf(c.arrays), c.count, |c.arrays|) <= out.Length
    ensures out[..end] == Built(cl, c.arrays, Picks(c, c.count), old(out[..start]), |c.arrays|)
  {
    hide SectionsOf, WireBytes, Packed, ValidArray, EndBefore, OffsetOf, Built, Picks, ValidArrays;
    ghost var prefix := out[..start];
    end := start;
    BuiltFirst(cl, c, prefix);
    for i := 0 to |c.arrays|
      invariant end == EndBefore(start, SectionsOf(c.arrays), c.count, i) <= out.Length
      invariant out[..end] == Built(cl, c.arrays, Picks(c, c.count), prefix, i)
    {
      BuiltStep(cl, c, prefix, i);
      if c.arrays[i].Some? {
        end := CaptureSlot(cl, c, i, c.arrays[i].value, out, end, offsets[i]);
      }
    }
  }

  lemma BuiltFirst(cl: Client, c: Capture, prefix: seq<byte>)
    requires ValidCapture(c)
    ensures ValidArrays(c.arrays) && EndBefore(|prefix|, SectionsOf(c.arrays), c.count, 0) == |prefix|
    ensures Built(cl, c.arrays, Picks(c, c.count), prefix, 0) == prefix
  {
  }

  lemma SlotOf(arrays: seq<Option<ClientArray>>, i: nat)
    requires i < |arrays|
    ensures SectionsOf(arrays)[i] == SlotSection(i, arrays[i])
    ensures SectionsOf(arrays)[i].Absent? <==> arrays[i].None?
  {
  }

  /** CaptureVertices. */
  method CaptureVertices(cl: Client, c: Capture, offsets: seq<u32>, out: array<byte>)
    requires ValidCapture(c) && |offsets| == |c.arrays|
    requires out.Length == Length(4 * |c.arrays|, SectionsOf(c.arrays), c.count)
    requires forall i :: 0 <= i < |offsets| && c.arrays[i].Some?
               ==> offsets[i] == OffsetOf(4 * |c.arrays|, SectionsOf(c.arrays), c.count, i)
    modifies out
    ensures out[..] == Payload(cl, c)
  {
    hide SectionsOf, Built, DescriptorWords, EndBefore, OffsetOf, ValidArrays, Picks, ValidCapture;
    ghost var words := DescriptorWords(c.arrays, |c.arrays|);
    Write(out, 0, DescriptorWords(c.arrays, |c.arrays|));
    assert out[..4 * |c.arrays|] == words;
    var end := CaptureSections(cl, c, offsets, out, 4 * |c.arrays|);
    if end != out.Length {
      Write(out, end, Zeros(out.Length - end));
    }
    assert out[..] == out[..out.Length];
  }

  // ---- Reading it back ----

  /** The host's view of a payload: descriptors, layout, then each element. */
  function HostSections(enabled: set<nat>, payload: seq<byte>, slots: nat): (s: seq<Section>)
    requires 4 * slots <= |payload|
    ensures |s| == slots
  {
    seq(slots, i requires 0 <= i < slots => SectionOf(i in enabled, Value(payload, 4 * i, 4) % WORD))
  }

  function HostElement(enabled: set<nat>, payload: seq<byte>, slots: nat, count: nat, slot: nat, v: nat): seq<byte>
    requires slot < slots && 4 * slots <= |payload|
  {
    var s := HostSections(enabled, payload, slots);
    var o := OffsetOf(4 * slots, s, count, slot) + v * ElementBytes(s[slot]);
    if 0 <= o && o + ElementBytes(s[slot]) <= |payload| then payload[o..o + ElementBytes(s[slot])] else []
  }

  function EnabledSlots(arrays: seq<Option<ClientArray>>): set<nat> {
    set i | 0 <= i < |arrays| && arrays[i].Some?
  }

  lemma HostSeesSections(arrays: seq<Option<ClientArray>>, rest: seq<byte>)
    requires ValidArrays(arrays)
    ensures HostSections(EnabledSlots(arrays), DescriptorWords(arrays, |arrays|) + rest, |arrays|) == SectionsOf(arrays)
  {
    hide Value, Descriptor;
    var n := |arrays|;
    var payload := DescriptorWords(arrays, n) + rest;
    forall i | 0 <= i < n
      ensures HostSections(EnabledSlots(arrays), payload, n)[i] == SectionsOf(arrays)[i]
    {
      WordAt(arrays, n, i, rest);
      SmallWord(SlotWord(arrays, i));
      if arrays[i].Some? {
        DescriptorIsSection(i, arrays[i].value);
      }
    }
  }

  lemma {:induction false} BuiltStartsWith(cl: Client, arrays: seq<Option<ClientArray>>, picks: seq<nat>, prefix: seq<byte>, i: nat)
    requires ValidArrays(arrays) && i <= |arrays|
    ensures |prefix| <= |Built(cl, arrays, picks, prefix, i)| && Built(cl, arrays, picks, prefix, i)[..|prefix|] == prefix
  {
    hide Packed, SectionsOf, Align;
    if i > 0 {
      BuiltStartsWith(cl, arrays, picks, prefix, i - 1);
    }
  }

  function BuiltOf(cl: Client, c: Capture): (r: seq<byte>)
    requires ValidCapture(c)
    ensures |r| == EndBefore(4 * |c.arrays|, SectionsOf(c.arrays), c.count, |c.arrays|)
  {
    Built(cl, c.arrays, Picks(c, c.count), DescriptorWords(c.arrays, |c.arrays|), |c.arrays|)
  }

  ghost predicate StartsWith(s: seq<byte>, prefix: seq<byte>) {
    |prefix| <= |s| && s[..|prefix|] == prefix
  }

  /** Whatever follows the sections, the host finds the same layout and every element in its place. */
  lemma SectionsRoundTrip(cl: Client, c: Capture, payload: seq<byte>, slot: nat, v: nat)
    requires ValidCapture(c) && StartsWith(payload, BuiltOf(cl, c)) && 4 * |c.arrays| <= |payload|
    requires slot < |c.arrays| && c.arrays[slot].Some? && v < c.count
    ensures HostSections(EnabledSlots(c.arrays), payload, |c.arrays|) == SectionsOf(c.arrays)
    ensures HostElement(EnabledSlots(c.arrays), payload, |c.arrays|, c.count, slot, v)
            == WireElement(cl, slot, c.arrays[slot].value, Picks(c, c.count)[v])
  {
    hide Built, DescriptorWords, SectionsOf, WireElement, Picks, HostSections;
    var n, a := |c.arrays|, c.arrays[slot].value;
    var prefix, picks, built := DescriptorWords(c.arrays, n), Picks(c, c.count), BuiltOf(cl, c);
    BuiltStartsWith(cl, c.arrays, picks, prefix, n);
    assert payload == prefix + payload[|prefix|..];
    HostSeesSections(c.arrays, payload[|prefix|..]);
    BuiltHolds(cl, c.arrays, picks, prefix, slot, n, v);
    SlotOf(c.arrays, slot);
    var o := OffsetOf(4 * n, SectionsOf(c.arrays), c.count, slot) + v * WireBytes(slot, a);
    assert payload[o..o + WireBytes(slot, a)] == built[o..o + WireBytes(slot, a)];
  }

  /**
   * The round trip: what the host reads for vertex v of an enabled array is the
   * wire form of the vertex the draw picked.
   */
  lemma CaptureRoundTrip(cl: Client, c: Capture, slot: nat, v: nat)
    requires ValidCapture(c) && slot < |c.arrays| && c.arrays[slot].Some? && v < c.count
    ensures 4 * |c.arrays| <= |Payload(cl, c)|
    ensures HostElement(EnabledSlots(c.arrays), Payload(cl, c), |c.arrays|, c.count, slot, v)
            == WireElement(cl, slot, c.arrays[slot].value, Picked(c, v))
  {
    hide BuiltOf, Payload, HostElement, HostSections, WireElement, IndexAt, Offset, SectionsOf, Picks;
    PayloadIs(cl, c);
    SectionsRoundTrip(cl, c, Payload(cl, c), slot, v);
    PickAt(c, c.count, v);
  }

  lemma PayloadIs(cl: Client, c: Capture)
    requires ValidCapture(c)
    ensures StartsWith(Payload(cl, c), BuiltOf(cl, c)) && 4 * |c.arrays| <= |Payload(cl, c)|
  {
    hide Built, SectionsOf, DescriptorWords;
  }

  // ---- The layout of a draw ----

  /** The slots of a draw: the legacy seven, the extended sixteen, or thirty-two with generic attributes. */
  function SlotCount(mask: set<nat>, generic: set<nat>): nat {
    if generic != {} then 32 else if exists b :: b in mask && 7 <= b < RAW then 16 else 7
  }

  /** The draw's enabled arrays in the slot order of its record; slot 15 has none. */
  datatype Format = Format(arrays: seq<Option<ClientArray>>, mask: set<nat>, generic: set<nat>)

  /** The mask names RAW and exactly the enabled conventional arrays, `generic` exactly the enabled generic ones. */
  ghost predicate Masks(arrays: seq<Option<ClientArray>>, mask: set<nat>, generic: set<nat>) {
    && (|arrays| > 15 ==> arrays[15].None?)
    && (forall i: nat :: i in mask <==> i == RAW || (i < 15 && i < |arrays| && arrays[i].Some?))
    && (forall g: nat :: g in generic <==> 16 + g < |arrays| && arrays[16 + g].Some?)
  }

  /** The slots that a record of so many slots enables, as its reader takes them from the masks. */
  function EnabledIn(slots: nat, mask: set<nat>, generic: set<nat>): set<nat> {
    if slots == 32 then AttribEnabled(mask, generic) else set b | b in mask && b < slots
  }

  lemma EnabledAreSlots(arrays: seq<Option<ClientArray>>, mask: set<nat>, generic: set<nat>)
    requires |arrays| in {7, 16, 32} && Masks(arrays, mask, generic)
    ensures EnabledIn(|arrays|, mask, generic) == EnabledSlots(arrays)
  {
    forall i | 0 <= i < |arrays|
      ensures i in EnabledIn(|arrays|, mask, generic) <==> i in EnabledSlots(arrays)
    {
      if i >= 16 {
        assert i - 16 in generic <==> arrays[16 + (i - 16)].Some?;
      }
    }
  }

  ghost predicate ValidFormat(f: Format) {
    && |f.arrays| in {7, 16, 32} && ValidArrays(f.arrays) && Masks(f.arrays, f.mask, f.generic)
    && (|f.arrays| == 32 || f.generic == {})
    && (forall i :: 0 <= i < |f.arrays| ==>
          (f.arrays[i].Some? <==> i in (if |f.arrays| == 32 then AttribEnabled(f.mask, f.generic) else f.mask)))
  }

  function DescriptorsOf(arrays: seq<Option<ClientArray>>): seq<u32> {
    seq<u32>(|arrays|, i requires 0 <= i < |arrays| => SlotWord(arrays, i) % WORD)
  }

  lemma SectionsAgree(f: Format)
    requires ValidFormat(f)
    ensures Sections(if |f.arrays| == 32 then AttribEnabled(f.mask, f.generic) else f.mask, DescriptorsOf(f.arrays))
            == SectionsOf(f.arrays)
  {
    hide Descriptor, AttribEnabled;
    forall i | 0 <= i < |f.arrays| && f.arrays[i].Some?
      ensures SectionOf(true, DescriptorsOf(f.arrays)[i]) == SectionsOf(f.arrays)[i]
    {
      DescriptorIsSection(i, f.arrays[i].value);
      SmallWord(SlotWord(f.arrays, i));
    }
  }

  predicate Admitted(f: Format, n: nat) {
    if |f.arrays| == 32 then AttribAdmitted(f.mask, f.generic, n, DescriptorsOf(f.arrays))
    else ArrayAdmitted(f.mask, n, DescriptorsOf(f.arrays), |f.arrays|)
  }

  /** CaptureLayout. */
  method CaptureLayout(f: Format, n: u32) returns (ok: bool, offsets: seq<u32>, length: u32)
    requires ValidFormat(f)
    ensures ok <==> Admitted(f, n)
    ensures ok ==> length == Length(4 * |f.arrays|, SectionsOf(f.arrays), n) && |offsets| == |f.arrays|
    ensures ok ==> forall i :: 0 <= i < |offsets| && f.arrays[i].Some?
                     ==> offsets[i] == OffsetOf(4 * |f.arrays|, SectionsOf(f.arrays), n, i)
  {
    hide AttribAdmitted, ArrayAdmitted, Length, OffsetOf, SectionsOf, Sections, AttribEnabled, ValidArrays;
    SectionsAgree(f);
    if |f.arrays| == 32 {
      ok, offsets, length := RawAttribLayout(f.mask, f.generic, n, DescriptorsOf(f.arrays));
    } else {
      ok, offsets, length := RawArrayLayoutSlots(f.mask, n, DescriptorsOf(f.arrays), |f.arrays|);
    }
  }

  /** A packet of n vertices is admitted and no longer than limit. */
  ghost predicate Fits(f: Format, n: nat, limit: nat) {
    Admitted(f, n) && Length(4 * |f.arrays|, SectionsOf(f.arrays), n) <= limit
  }

  lemma FewerFit(f: Format, n: nat, m: nat, limit: nat)
    requires n <= m && Fits(f, m, limit)
    ensures Fits(f, n, limit)
  {
    hide Length, SlotOk, SectionsOf;
    LayoutIsMonotone(4 * |f.arrays|, SectionsOf(f.arrays), n, m, |f.arrays|);
  }

  function VertexBytes(s: seq<Section>, i: nat): nat
    requires i <= |s|
  {
    if i == 0 then 0 else VertexBytes(s, i - 1) + ElementBytes(s[i - 1])
  }

  lemma {:induction false} SectionsAreLong(start: nat, s: seq<Section>, n: nat, i: nat)
    requires i <= |s|
    ensures start + n * VertexBytes(s, i) <= EndBefore(start, s, n, i)
  {
    if i > 0 {
      hide EndBefore, ElementBytes;
      SectionsAreLong(start, s, n, i - 1);
      SectionIsLong(start, s, n, i - 1);
      Distribute(n, VertexBytes(s, i - 1), ElementBytes(s[i - 1]));
    }
  }

  lemma Distribute(n: nat, a: nat, b: nat)
    ensures n * (a + b) == n * a + n * b
  {
  }

  lemma SectionIsLong(start: nat, s: seq<Section>, n: nat, i: nat)
    requires i < |s|
    ensures EndBefore(start, s, n, i) + n * ElementBytes(s[i]) <= EndBefore(start, s, n, i + 1)
  {
    hide ElementBytes, Align;
    AbsentIsEmpty(s[i]);
    assert n * 0 == 0;
  }

  lemma AbsentIsEmpty(s: Section)
    ensures s.Absent? ==> ElementBytes(s) == 0
  {
  }

  lemma TooManyVertices(f: Format, limit: nat, n: nat)
    requires VertexBytes(SectionsOf(f.arrays), |f.arrays|) > 0
    requires limit <= 4 * |f.arrays| || n > (limit - 4 * |f.arrays|) / VertexBytes(SectionsOf(f.arrays), |f.arrays|)
    requires n > 0
    ensures !Fits(f, n, limit)
  {
    hide Admitted, SectionsOf, VertexBytes;
    var start, s, b := 4 * |f.arrays|, SectionsOf(f.arrays), VertexBytes(SectionsOf(f.arrays), |f.arrays|);
    SectionsAreLong(start, s, n, |s|);
    if limit > start {
      BeyondQuotient(limit - start, b, n);
    } else {
      MulMonotone(1, n, b);
    }
  }

  lemma BeyondQuotient(a: nat, b: nat, n: nat)
    requires b > 0 && n > a / b
    ensures n * b > a
  {
    var q, r := a / b, a % b;
    assert a == q * b + r;
    MulMonotone(q + 1, n, b);
    assert (q + 1) * b == q * b + b;
  }

  /** The most vertices one packet can hold; no payload memory is touched. */
  method PacketCapacity(f: Format, limit: u32) returns (capacity: u32)
    requires ValidFormat(f) && VertexBytes(SectionsOf(f.arrays), |f.arrays|) > 0
    ensures capacity <= MAX_VERTICES && (capacity > 0 ==> Fits(f, capacity, limit))
    ensures forall n :: capacity < n <= MAX_VERTICES ==> !Fits(f, n, limit)
  {
    hide Admitted, ValidFormat, SectionsOf, Length, VertexBytes;
    var slots, bytes := |f.arrays|, VertexBytes(SectionsOf(f.arrays), |f.arrays|);
    capacity := if limit > slots * 4 then (limit - slots * 4) / bytes else 0;
    if capacity > MAX_VERTICES {
      capacity := MAX_VERTICES;
    }
    forall n | capacity < n <= MAX_VERTICES
      ensures !Fits(f, n, limit)
    {
      TooManyVertices(f, limit, n);
    }
    while capacity > 0
      invariant capacity <= MAX_VERTICES && forall n :: capacity < n <= MAX_VERTICES ==> !Fits(f, n, limit)
    {
      var ok, offsets, length := CaptureLayout(f, capacity);
      if ok && length <= limit {
        break;
      }
      capacity := capacity - 1;
    }
  }

  // ---- The draw ----

  /** One submitted record: its function by its number of slots, mode, vertices, masks and payload. */
  datatype Packet = Packet(slots: nat, mode: Mode, count: nat, mask: set<nat>, generic: set<nat>, payload: seq<byte>)

  function Enabled(p: Packet): set<nat> {
    EnabledIn(p.slots, p.mask, p.generic)
  }

  /** The draw as a whole, its vertices named through the indices if any. */
  function WholeDraw(f: Format, indices: Option<seq<byte>>, indexSize: nat, first: nat): Capture {
    Capture(f.arrays, indices, indexSize, first, 0, 0, false)
  }

  /** The packet carries, for each array that its own masks enable, the vertices of its chunk of the draw. */
  ghost predicate Carries(cl: Client, draw: Capture, p: Packet, c: Chunk) {
    && p.count == c.n && p.slots == |draw.arrays| && |p.payload| >= 4 * p.slots && Masks(draw.arrays, p.mask, p.generic)
    && forall slot, v :: 0 <= slot < |draw.arrays| && draw.arrays[slot].Some? && 0 <= v < c.n ==>
         && ValidArray(draw.arrays[slot].value)
         && (draw.indices.Some? ==> (Offset(c, v) + 1) * draw.index_size <= |draw.indices.value|)
         && HostElement(Enabled(p), p.payload, p.slots, p.count, slot, v)
            == WireElement(cl, slot, draw.arrays[slot].value, IndexAt(draw, Offset(c, v)))
  }

  /** The descriptor words that a payload begins with, as its reader takes them. */
  function HostWords(payload: seq<byte>, slots: nat): seq<u32>
    requires 4 * slots <= |payload|
  {
    seq<u32>(slots, i requires 0 <= i < slots => Value(payload, 4 * i, 4) % WORD)
  }

  /** The host's checks of a record before it draws: the layout is admitted, and the payload is exactly as long as it says. */
  ghost predicate HostAdmits(p: Packet) {
    && 4 * p.slots <= |p.payload|
    && (if p.slots == 32 then AttribAdmitted(p.mask, p.generic, p.count, HostWords(p.payload, p.slots))
        else ArrayAdmitted(p.mask, p.count, HostWords(p.payload, p.slots), p.slots))
    && |p.payload| == Length(4 * p.slots, HostSections(Enabled(p), p.payload, p.slots), p.count)
  }

  /** A packet as it goes out for a chunk of the draw. */
  ghost predicate Captured(cl: Client, draw: Capture, mode: Mode, limit: nat, p: Packet, c: Chunk) {
    p.mode == mode && |p.payload| <= limit && HostAdmits(p) && Carries(cl, draw, p, c)
  }

  ghost predicate IndicesCover(draw: Capture, count: nat) {
    draw.indices.Some? ==> |draw.indices.value| == count * draw.index_size
  }

  lemma OffsetsAreIndexed(draw: Capture, count: nat, c: Chunk, v: nat)
    requires IndicesCover(draw, count) && InDraw(c, count) && v < c.n
    ensures draw.indices.Some? ==> (Offset(c, v) + 1) * draw.index_size <= |draw.indices.value|
  {
    MulMonotone(Offset(c, v) + 1, count, draw.index_size);
  }

  lemma ChunkIsValid(draw: Capture, count: nat, c: Chunk)
    requires ValidArrays(draw.arrays) && IndicesCover(draw, count) && InDraw(c, count)
    ensures ValidCapture(draw.(at := c.at, count := c.n, fan := c.fan))
  {
    hide Offset, InDraw, IndicesCover;
    var k := draw.(at := c.at, count := c.n, fan := c.fan);
    forall v | 0 <= v < c.n
      ensures draw.indices.Some? ==> (Offset(c, v) + 1) * draw.index_size <= |draw.indices.value|
    {
      OffsetsAreIndexed(draw, count, c, v);
    }
    FanStarts(c, count);
  }

  lemma FanStarts(c: Chunk, count: nat)
    requires InDraw(c, count)
    ensures c.fan ==> c.at > 0
  {
  }

  /** Capture one chunk into its own record. */
  method CapturePacket(cl: Client, f: Format, draw: Capture, mode: Mode, count: nat, c: Chunk, limit: u32) returns (p: Packet)
    requires ValidFormat(f) && draw.arrays == f.arrays && IndicesCover(draw, count) && InDraw(c, count)
    requires c.n < WORD && Fits(f, c.n, limit)
    ensures Captured(cl, draw, mode, limit, p, c)
  {
    hide Admitted, InDraw, HostElement, WireElement, IndexAt, Offset, Payload, Length, OffsetOf, SectionsOf, ValidCapture,
      IndicesCover, HostAdmits, Carries;
    var ok, offsets, length := CaptureLayout(f, c.n);
    var k := draw.(at := c.at, count := c.n, fan := c.fan);
    ChunkIsValid(draw, count, c);
    var out := new byte[length];
    CaptureVertices(cl, k, offsets, out);
    p := Packet(|f.arrays|, mode, c.n, f.mask, f.generic, out[..]);
    PayloadAdmitted(cl, f, k, p);
    PayloadCarries(cl, draw, k, count, c, p);
  }

  lemma PayloadAdmitted(cl: Client, f: Format, k: Capture, p: Packet)
    requires ValidFormat(f) && ValidCapture(k) && k.arrays == f.arrays && Admitted(f, k.count)
    requires p == Packet(|f.arrays|, p.mode, k.count, f.mask, f.generic, Payload(cl, k))
    ensures HostAdmits(p)
  {
    hide Built, SectionsOf, DescriptorWords, AttribAdmitted, ArrayAdmitted, ValidFormat, Masks, EnabledIn, EnabledSlots, Value, Descriptor, Length;
    var n, words := |f.arrays|, DescriptorWords(f.arrays, |f.arrays|);
    FormatParts(f);
    LengthAtLeast(4 * n, SectionsOf(f.arrays), k.count);
    BuiltStartsWith(cl, k.arrays, Picks(k, k.count), words, n);
    var rest := p.payload[|words|..];
    assert p.payload == words + rest;
    EnabledAreSlots(f.arrays, f.mask, f.generic);
    HostSeesSections(f.arrays, rest);
    forall i | 0 <= i < n
      ensures HostWords(p.payload, n)[i] == DescriptorsOf(f.arrays)[i]
    {
      WordAt(f.arrays, n, i, rest);
    }
    assert HostWords(p.payload, n) == DescriptorsOf(f.arrays);
  }

  lemma FormatParts(f: Format)
    requires ValidFormat(f)
    ensures |f.arrays| in {7, 16, 32} && ValidArrays(f.arrays) && Masks(f.arrays, f.mask, f.generic)
  {
  }

  lemma PayloadCarries(cl: Client, draw: Capture, k: Capture, count: nat, c: Chunk, p: Packet)
    requires IndicesCover(draw, count) && InDraw(c, count) && ValidCapture(k)
    requires k == draw.(at := c.at, count := c.n, fan := c.fan) && p.count == c.n && p.payload == Payload(cl, k)
    requires p.slots == |draw.arrays| && p.slots in {7, 16, 32} && Masks(draw.arrays, p.mask, p.generic)
    ensures Carries(cl, draw, p, c)
  {
    hide InDraw, HostElement, WireElement, IndexAt, Offset, Payload, IndicesCover, Masks, EnabledIn, EnabledSlots, SectionsOf, Length, ValidArray;
    LengthAtLeast(4 * |k.arrays|, SectionsOf(k.arrays), k.count);
    EnabledAreSlots(draw.arrays, p.mask, p.generic);
    forall slot, v | 0 <= slot < |draw.arrays| && draw.arrays[slot].Some? && 0 <= v < c.n
      ensures (draw.indices.Some? ==> (Offset(c, v) + 1) * draw.index_size <= |draw.indices.value|)
              && HostElement(EnabledSlots(draw.arrays), p.payload, |draw.arrays|, c.n, slot, v)
                 == WireElement(cl, slot, draw.arrays[slot].value, IndexAt(draw, Offset(c, v)))
    {
      OffsetsAreIndexed(draw, count, c, v);
      CaptureRoundTrip(cl, k, slot, v);
      SameIndex(draw, k, Offset(c, v));
    }
  }

  lemma LengthAtLeast(start: nat, s: seq<Section>, count: nat)
    ensures start <= Length(start, s, count)
  {
  }

  lemma SameIndex(draw: Capture, k: Capture, offset: nat)
    requires draw.indices == k.indices && draw.index_size == k.index_size && draw.first == k.first
    requires draw.indices.Some? ==> (offset + 1) * draw.index_size <= |draw.indices.value|
    ensures IndexAt(draw, offset) == IndexAt(k, offset)
  {
  }

  /** The draw's arrays: fifteen conventional slots, slot 15 empty, sixteen generic attributes. */
  ghost predicate ValidDrawArrays(arrays: seq<Option<ClientArray>>) {
    && |arrays| == 32 && arrays[15].None? && ValidArrays(arrays)
    && (arrays[0].Some? || arrays[16].Some?)
  }

  function FormatOf(arrays: seq<Option<ClientArray>>): Format
    requires |arrays| == 32
  {
    var mask := (set i | 0 <= i < 15 && arrays[i].Some?) + {RAW};
    var generic := set i | 16 <= i < 32 && arrays[i].Some? :: i - 16;
    Format(arrays[..SlotCount(mask, generic)], mask, generic)
  }

  lemma GenericOf(arrays: seq<Option<ClientArray>>)
    requires |arrays| == 32
    ensures forall g: nat :: g in FormatOf(arrays).generic <==> 16 + g < 32 && arrays[16 + g].Some?
  {
    var generic := FormatOf(arrays).generic;
    forall g: nat | 16 + g < 32 && arrays[16 + g].Some?
      ensures g in generic
    {
      assert (16 + g) - 16 in generic;
    }
  }

  lemma FormatIsValid(arrays: seq<Option<ClientArray>>)
    requires ValidDrawArrays(arrays)
    ensures ValidFormat(FormatOf(arrays))
    ensures forall i :: 0 <= i < 32 && arrays[i].Some? ==> i < |FormatOf(arrays).arrays|
  {
    hide ValidArray;
    var f := FormatOf(arrays);
    GenericOf(arrays);
    forall i | 0 <= i < |f.arrays|
      ensures f.arrays[i].Some? <==> i in (if |f.arrays| == 32 then AttribEnabled(f.mask, f.generic) else f.mask)
    {
      if |f.arrays| == 32 && i >= 16 {
        assert i in AttribEnabled(f.mask, f.generic) <==> i - 16 in f.generic;
      }
    }
    forall i | 0 <= i < 32 && arrays[i].Some?
      ensures i < |f.arrays|
    {
      assert 7 <= i < 15 ==> i in f.mask;
      assert i >= 16 ==> i - 16 in f.generic;
    }
  }

  lemma {:induction false} SomeVertexBytes(s: seq<Section>, k: nat, i: nat)
    requires k < i <= |s| && s[k].Present? && WellFormed(s[k])
    ensures VertexBytes(s, i) > 0
  {
    ElementIsSmall(s[k]);
    if k < i - 1 {
      SomeVertexBytes(s, k, i - 1);
    }
  }

  lemma DrawHasVertexBytes(arrays: seq<Option<ClientArray>>)
    requires ValidDrawArrays(arrays)
    ensures VertexBytes(SectionsOf(FormatOf(arrays).arrays), |FormatOf(arrays).arrays|) > 0
  {
    hide VertexBytes, ElementBytes, SlotSection;
    FormatIsValid(arrays);
    var f := FormatOf(arrays);
    var k := if arrays[0].Some? then 0 else 16;
    SectionsWellFormed(f.arrays);
    SlotOf(f.arrays, k);
    SomeVertexBytes(SectionsOf(f.arrays), k, |f.arrays|);
  }

  // ---- Ranges ----

  const POINTERS: nat := 0xffffffff

  /** ArrayRange: vertex `index` of the array has an address. */
  predicate InRange(a: ClientArray, index: nat) {
    var end := index * StrideOf(a) + ComponentBytes(a.Type) * a.Size;
    a.Pointer != 0 && 0 <= end <= POINTERS && a.Pointer <= POINTERS - end
  }

  function Highest(draw: Capture, n: nat): nat
    requires draw.indices.Some? ==> n * draw.index_size <= |draw.indices.value|
  {
    if n == 0 then 0
    else
      OffsetWithin(n - 1, draw.index_size);
      var rest, last := Highest(draw, n - 1), IndexAt(draw, n - 1);
      if last > rest then last else rest
  }

  function Lowest(draw: Capture, n: nat): nat
    requires draw.indices.Some? ==> n * draw.index_size <= |draw.indices.value|
  {
    if n == 0 then 0xffffffff
    else
      OffsetWithin(n - 1, draw.index_size);
      var rest, last := Lowest(draw, n - 1), IndexAt(draw, n - 1);
      if last < rest then last else rest
  }

  /** Every vertex of the draw lies between its bounds. */
  lemma {:induction false} WithinBounds(draw: Capture, n: nat, v: nat)
    requires draw.indices.Some? ==> n * draw.index_size <= |draw.indices.value|
    requires v < n
    ensures draw.indices.Some? ==> (v + 1) * draw.index_size <= |draw.indices.value|
    ensures Lowest(draw, n) <= IndexAt(draw, v) <= Highest(draw, n)
  {
    hide IndexAt;
    OffsetWithin(n - 1, draw.index_size);
    MulMonotone(v + 1, n, draw.index_size);
    if v < n - 1 {
      WithinBounds(draw, n - 1, v);
    }
  }

  lemma {:induction false} HighestOfRun(draw: Capture, n: nat)
    requires draw.indices.None? && n > 0
    ensures Highest(draw, n) == draw.first + n - 1
  {
    if n > 1 {
      HighestOfRun(draw, n - 1);
    }
  }

  /** IndexBounds. */
  method IndexBounds(draw: Capture, count: nat) returns (low: nat, high: nat)
    requires IndicesCover(draw, count)
    ensures low == Lowest(draw, count) && high == Highest(draw, count)
  {
    hide IndexAt;
    low, high := 0xffffffff, 0;
    for i := 0 to count
      invariant draw.indices.Some? ==> i * draw.index_size <= |draw.indices.value|
      invariant low == Lowest(draw, i) && high == Highest(draw, i)
    {
      OffsetWithin(i, draw.index_size);
      MulMonotone(i + 1, count, draw.index_size);
      var v := IndexAt(draw, i);
      low := if v < low then v else low;
      high := if v > high then v else high;
    }
  }

  /** The records before a refused one are submitted; `complete` says that none was refused. */
  datatype Outcome = Submitted(packets: seq<Packet>, complete: bool) | InvalidValue | OutOfMemory | QueryFailed

  /** The caller's indices: an address and what is there. */
  datatype Elements = Elements(address: u32, bytes: seq<byte>)

  function BytesOf(elements: Option<Elements>): Option<seq<byte>> {
    if elements.Some? then Some(elements.value.bytes) else None
  }

  /** The indices have no address, or end past the address space. */
  predicate BadPointer(elements: Option<Elements>, count: u32, indexSize: nat) {
    elements.Some? && (elements.value.address == 0 || elements.value.address + count * indexSize > POINTERS)
  }

  /** Offset n of the draw names `vertex`: counting from `first`, or the little-endian index there. */
  ghost predicate IsVertex(elements: Option<Elements>, indexSize: nat, first: nat, n: nat, vertex: nat) {
    if elements.None? then vertex == first + n
    else 0 <= n * indexSize && n * indexSize + indexSize <= |elements.value.bytes| && vertex == Value(elements.value.bytes, n * indexSize, indexSize)
  }

  /** For each of the caller's arrays the host reads, through the record's own masks, the vertices of the chunk. */
  ghost predicate Shows(cl: Client, arrays: seq<Option<ClientArray>>, elements: Option<Elements>, indexSize: nat, first: nat, p: Packet, c: Chunk) {
    p.count == c.n && 4 * p.slots <= |p.payload|
    && forall slot, v, vertex :: 0 <= slot < |arrays| && arrays[slot].Some? && 0 <= v < c.n && IsVertex(elements, indexSize, first, Offset(c, v), vertex) ==>
         slot < p.slots && slot in Enabled(p) && ValidArray(arrays[slot].value)
         && HostElement(Enabled(p), p.payload, p.slots, p.count, slot, v) == WireElement(cl, slot, arrays[slot].value, vertex)
  }

  /** The packets draw the whole draw's primitives, or the first of them; each fits and shows its own vertices. */
  ghost predicate Renders(cl: Client, arrays: seq<Option<ClientArray>>, elements: Option<Elements>, indexSize: nat, first: nat,
                          mode: Mode, count: nat, maxWords: nat, packets: seq<Packet>, complete: bool, chunks: seq<Chunk>)
    requires |arrays| == 32
  {
    && |packets| == |chunks|
    && (if complete then Drawn(mode, chunks) == Assemble(mode, Whole(count)) else Drawn(mode, chunks) <= Assemble(mode, Whole(count)))
    && forall k :: 0 <= k < |packets| ==>
         packets[k].mode == mode && HostAdmits(packets[k]) && InDraw(chunks[k], count) && Presents(cl, arrays, elements, indexSize, first, maxWords, packets[k], chunks[k])
  }

  ghost predicate Presents(cl: Client, arrays: seq<Option<ClientArray>>, elements: Option<Elements>, indexSize: nat, first: nat, maxWords: nat,
                           p: Packet, c: Chunk)
    requires |arrays| == 32
  {
    && Names(p, arrays) && RecordWords(if p.slots == 32 then 5 else 4, |p.payload|) <= maxWords
    && Shows(cl, arrays, elements, indexSize, first, p, c)
  }

  /** The record names the caller's arrays, in the smallest layout that has a slot for each. */
  ghost predicate Names(p: Packet, arrays: seq<Option<ClientArray>>)
    requires |arrays| == 32
  {
    && Masks(arrays, p.mask, p.generic)
    && p.slots == if exists g :: 16 <= g < 32 && arrays[g].Some? then 32 else if exists i :: 7 <= i < 15 && arrays[i].Some? then 16 else 7
  }

  /** The indices have no address, or some vertex of the draw has no 32-bit number or no address. */
  ghost predicate Unaddressable(elements: Option<Elements>, indexSize: nat, first: nat, count: nat, arrays: seq<Option<ClientArray>>) {
    || (elements.Some? && (elements.value.address == 0 || elements.value.address + count * indexSize > 0xffffffff))
    || (elements.None? && first + count > 0x1_0000_0000)
    || exists slot, n, vertex :: 0 <= slot < |arrays| && arrays[slot].Some? && 0 <= n < count
                                 && IsVertex(elements, indexSize, first, n, vertex) && !InRange(arrays[slot].value, vertex)
  }

  /** An array reaches a vertex whose element ends inside the address space. */
  lemma InRangeIff(a: ClientArray, unit: nat, index: nat)
    requires HasUnit(a.Type, unit)
    ensures InRange(a, index) <==> a.Pointer != 0 && Address(a, unit, index) + unit * a.Size <= 0xffffffff
  {
    var stride := if a.Stride != 0 then a.Stride else unit * a.Size;
    assert index * StrideOf(a) == index * stride;
  }

  lemma InRangeBelow(a: ClientArray, index: nat, high: nat)
    requires index <= high && InRange(a, high)
    ensures InRange(a, index)
  {
    MulMonotone(index, high, StrideOf(a));
  }

  lemma {:induction false} HighestIsReached(draw: Capture, n: nat) returns (at: nat)
    requires n > 0 && (draw.indices.Some? ==> n * draw.index_size <= |draw.indices.value|)
    ensures at < n && (draw.indices.Some? ==> (at + 1) * draw.index_size <= |draw.indices.value|)
    ensures Highest(draw, n) == IndexAt(draw, at)
  {
    hide IndexAt;
    OffsetWithin(n - 1, draw.index_size);
    at := n - 1;
    if n > 1 {
      var rest := HighestIsReached(draw, n - 1);
      if Highest(draw, n) != IndexAt(draw, n - 1) {
        at := rest;
      }
    }
  }

  /** Some vertex of the draw has no 32-bit index or no address: the highest one has none. */
  ghost predicate OutOfRange(draw: Capture, arrays: seq<Option<ClientArray>>, count: nat)
    requires IndicesCover(draw, count)
  {
    || (draw.indices.None? && draw.first + count > WORD)
    || exists i :: 0 <= i < |arrays| && arrays[i].Some? && !InRange(arrays[i].value, Highest(draw, count))
  }

  /** No packet can hold the least split, or a draw that must not be split. */
  ghost predicate TooLarge(f: Format, mode: Mode, count: nat, limit: nat, stippled: Option<bool>) {
    || !Fits(f, 4, limit)
    || (!Fits(f, count, limit) && (mode in {LineLoop, Polygon} || (mode == LineStrip && stippled == Some(true))))
  }

  ghost predicate FirstRefused(taken: nat -> bool, n: nat, complete: bool) {
    (forall k: nat :: k < n ==> taken(k)) && (!complete ==> !taken(n))
  }

  /**
   * ClientDraw. `stippled` is the host's answer about GL_LINE_STIPPLE (None: no
   * answer), asked only for a line strip that must be split; `taken` says
   * which records find room. A refused one ends the draw at whole primitives.
   */
  method Draw(cl: Client, mode: Mode, first: u32, count: u32, elements: Option<Elements>, indexSize: nat,
              arrays: seq<Option<ClientArray>>, maxWords: u32, stippled: Option<bool>, taken: nat -> bool)
    returns (outcome: Outcome, chunks: seq<Chunk>)
    requires ValidDrawArrays(arrays) && count > 0
    requires !BadPointer(elements, count, indexSize) ==> IndicesCover(WholeDraw(FormatOf(arrays), BytesOf(elements), indexSize, first), count)
    ensures var f := FormatOf(arrays);
            var limit := MaxDataBytes(if |f.arrays| == 32 then 5 else 4, maxWords) % WORD;
            var invalid, large := Unaddressable(elements, indexSize, first, count, arrays), TooLarge(f, mode, count, limit, stippled);
            && (outcome.InvalidValue? <==> invalid)
            && (outcome.OutOfMemory? <==> !invalid && large)
            && (outcome.QueryFailed? <==> !invalid && !large && mode == LineStrip && !Fits(f, count, limit) && stippled.None?)
            && (outcome.Submitted? ==>
                  && Renders(cl, arrays, elements, indexSize, first, mode, count, maxWords, outcome.packets, outcome.complete, chunks)
                  && FirstRefused(taken, |outcome.packets|, outcome.complete))
  {
    hide OutOfRange, Unaddressable, Fits, ValidFormat, FormatOf, Drawn, Assemble, Whole, InDraw, Captured, IndicesCover, VertexBytes, FirstRefused,
      MaxDataBytes, Presents;
    chunks := [];
    var f := FormatOf(arrays);
    FormatIsValid(arrays);
    DrawHasVertexBytes(arrays);
    if BadPointer(elements, count, indexSize) {
      assert Unaddressable(elements, indexSize, first, count, arrays) by { BadIsUnaddressable(elements, indexSize, first, count, arrays); }
      return InvalidValue, [];
    }
    var draw := WholeDraw(f, BytesOf(elements), indexSize, first);
    OutOfRangeMeans(elements, indexSize, first, count, arrays);
    var inRange := CheckRanges(draw, arrays, count);
    if !inRange {
      return InvalidValue, [];
    }
    var limit := MaxDataBytes(if |f.arrays| == 32 then 5 else 4, maxWords) % WORD;
    var capacity := PacketCapacity(f, limit);
    CapacityDecides(f, capacity, limit, 4);
    CapacityDecides(f, capacity, limit, count);
    if capacity < 4 || ((mode == LineLoop || mode == Polygon) && count > capacity) {
      return OutOfMemory, [];
    }
    if mode == LineStrip && count > capacity {
      if stippled.None? {
        return QueryFailed, [];
      }
      if stippled.value {
        return OutOfMemory, [];
      }
    }
    var packets, complete;
    packets, complete, chunks := DrawPackets(cl, f, draw, mode, count, capacity, limit, taken);
    outcome := Submitted(packets, complete);
    forall k | 0 <= k < |packets|
      ensures packets[k].mode == mode && HostAdmits(packets[k])
              && Presents(cl, arrays, elements, indexSize, first, maxWords, packets[k], chunks[k])
    {
      PacketPresents(cl, arrays, elements, indexSize, first, mode, maxWords, limit, packets[k], chunks[k]);
    }
  }

  /** The draw in packets of at most `capacity` vertices, up to the first that is refused. */
  method DrawPackets(cl: Client, f: Format, draw: Capture, mode: Mode, count: nat, capacity: u32, limit: u32, taken: nat -> bool)
    returns (packets: seq<Packet>, complete: bool, chunks: seq<Chunk>)
    requires ValidFormat(f) && draw.arrays == f.arrays && IndicesCover(draw, count) && Fits(f, capacity, limit) && count > 0
    requires capacity >= 4 && (mode in {LineLoop, Polygon} ==> count <= capacity)
    ensures |packets| == |chunks| && FirstRefused(taken, |packets|, complete)
    ensures if complete then Drawn(mode, chunks) == Assemble(mode, Whole(count)) else Drawn(mode, chunks) <= Assemble(mode, Whole(count))
    ensures forall k :: 0 <= k < |packets| ==>
              InDraw(chunks[k], count) && Captured(cl, draw, mode, limit, packets[k], chunks[k])
  {
    hide Fits, ValidFormat, Drawn, Assemble, Whole, InDraw, Captured, IndicesCover, FirstRefused;
    var all := Split(mode, count, capacity);
    packets, complete := Submit(cl, f, draw, mode, count, all, capacity, limit, taken);
    FirstDrawn(mode, all, |packets|);
    chunks := all[..|packets|];
  }

  lemma PacketPresents(cl: Client, arrays: seq<Option<ClientArray>>, elements: Option<Elements>, indexSize: nat, first: nat, mode: Mode, maxWords: nat, limit: nat,
                       p: Packet, c: Chunk)
    requires ValidDrawArrays(arrays) && limit == MaxDataBytes(if |FormatOf(arrays).arrays| == 32 then 5 else 4, maxWords) % WORD
    requires Captured(cl, WholeDraw(FormatOf(arrays), BytesOf(elements), indexSize, first), mode, limit, p, c)
    ensures p.mode == mode && HostAdmits(p)
    ensures Presents(cl, arrays, elements, indexSize, first, maxWords, p, c)
  {
    hide FormatOf, Masks, HostElement, WireElement, ValidFormat, MaxDataBytes, RecordWords, Names, Shows, ValidArrays, HostAdmits;
    FormatIsValid(arrays);
    SlotsOf(FormatOf(arrays));
    CarriesNames(cl, arrays, WholeDraw(FormatOf(arrays), BytesOf(elements), indexSize, first), p, c);
    CarriesShows(cl, arrays, elements, indexSize, first, p, c);
    PayloadFits(if p.slots == 32 then 5 else 4, |p.payload|, maxWords);
  }

  lemma PayloadFits(words: nat, bytes: nat, maxWords: nat)
    requires 0 < bytes <= MaxDataBytes(words, maxWords) % WORD
    ensures RecordWords(words, bytes) <= maxWords
  {
    assert words + 10 <= maxWords;
    DataFitsIff(words, bytes, maxWords);
  }

  lemma BadIsUnaddressable(elements: Option<Elements>, indexSize: nat, first: nat, count: u32, arrays: seq<Option<ClientArray>>)
    requires BadPointer(elements, count, indexSize)
    ensures Unaddressable(elements, indexSize, first, count, arrays)
  {
  }

  /** The test of the highest index is the test of every vertex. */
  lemma OutOfRangeMeans(elements: Option<Elements>, indexSize: nat, first: nat, count: u32, arrays: seq<Option<ClientArray>>)
    requires |arrays| == 32 && count > 0 && !BadPointer(elements, count, indexSize)
    requires IndicesCover(WholeDraw(FormatOf(arrays), BytesOf(elements), indexSize, first), count)
    ensures OutOfRange(WholeDraw(FormatOf(arrays), BytesOf(elements), indexSize, first), arrays, count)
            <==> Unaddressable(elements, indexSize, first, count, arrays)
  {
    hide FormatOf, InRange, Highest, Value;
    var draw := WholeDraw(FormatOf(arrays), BytesOf(elements), indexSize, first);
    if OutOfRange(draw, arrays, count) && !(draw.indices.None? && draw.first + count > WORD) {
      var at := HighestIsReached(draw, count);
      OffsetWithin(at, indexSize);
      assert IsVertex(elements, indexSize, first, at, Highest(draw, count));
    }
    forall slot, n, vertex | 0 <= slot < |arrays| && arrays[slot].Some? && 0 <= n < count
                             && IsVertex(elements, indexSize, first, n, vertex) && !InRange(arrays[slot].value, vertex)
      ensures OutOfRange(draw, arrays, count)
    {
      WithinBounds(draw, count, n);
      OffsetWithin(n, indexSize);
      if InRange(arrays[slot].value, Highest(draw, count)) {
        InRangeBelow(arrays[slot].value, vertex, Highest(draw, count));
      }
    }
  }

  lemma CarriesShows(cl: Client, arrays: seq<Option<ClientArray>>, elements: Option<Elements>, indexSize: nat, first: nat, p: Packet, c: Chunk)
    requires ValidDrawArrays(arrays) && Carries(cl, WholeDraw(FormatOf(arrays), BytesOf(elements), indexSize, first), p, c)
    ensures Shows(cl, arrays, elements, indexSize, first, p, c)
  {
    hide HostElement, WireElement, Offset, ValidArray, FormatOf, Masks, EnabledIn, ValidFormat, Value;
    var f := FormatOf(arrays);
    var draw := WholeDraw(f, BytesOf(elements), indexSize, first);
    FormatIsValid(arrays);
    PrefixOf(arrays);
    SlotsOf(f);
    EnabledAreSlots(f.arrays, p.mask, p.generic);
    forall slot, v, vertex | 0 <= slot < |arrays| && arrays[slot].Some? && 0 <= v < c.n && IsVertex(elements, indexSize, first, Offset(c, v), vertex)
      ensures slot < p.slots && slot in Enabled(p) && ValidArray(arrays[slot].value)
              && HostElement(Enabled(p), p.payload, p.slots, p.count, slot, v) == WireElement(cl, slot, arrays[slot].value, vertex)
    {
      OffsetWithin(Offset(c, v), indexSize);
      assert draw.arrays[slot] == arrays[slot];
    }
  }

  lemma PrefixOf(arrays: seq<Option<ClientArray>>)
    requires |arrays| == 32
    ensures FormatOf(arrays).arrays <= arrays
  {
  }

  lemma SlotsOf(f: Format)
    requires ValidFormat(f)
    ensures |f.arrays| in {7, 16, 32}
  {
  }

  lemma CarriesNames(cl: Client, arrays: seq<Option<ClientArray>>, draw: Capture, p: Packet, c: Chunk)
    requires ValidDrawArrays(arrays) && draw.arrays == FormatOf(arrays).arrays && Carries(cl, draw, p, c)
    ensures Names(p, arrays)
  {
    hide ValidArray, HostElement, WireElement, IndexAt, Offset;
    FormatIsValid(arrays);
    var mask := FormatOf(arrays).mask;
    GenericOf(arrays);
    assert forall b :: 7 <= b < 15 ==> (b in mask <==> arrays[b].Some?);
    assert (exists b :: b in mask && 7 <= b < RAW) <==> exists i :: 7 <= i < 15 && arrays[i].Some?;
    assert FormatOf(arrays).generic != {} <==> exists g :: 16 <= g < 32 && arrays[g].Some?;
  }

  /** The first chunks draw the first primitives. */
  lemma {:induction false} FirstDrawn(mode: Mode, chunks: seq<Chunk>, k: nat)
    requires k <= |chunks|
    ensures Drawn(mode, chunks[..k]) <= Drawn(mode, chunks)
    ensures k == |chunks| ==> chunks[..k] == chunks
  {
    if k < |chunks| {
      var front := chunks[..|chunks| - 1];
      FirstDrawn(mode, front, k);
      assert front[..k] == chunks[..k];
    } else {
      assert chunks[..k] == chunks;
    }
  }

  /** Ranges are checked for the whole draw at once, so no part of a bad one goes out. */
  method CheckRanges(draw: Capture, arrays: seq<Option<ClientArray>>, count: u32) returns (ok: bool)
    requires IndicesCover(draw, count) && count > 0
    ensures ok <==> !OutOfRange(draw, arrays, count)
  {
    hide InRange, Highest, Lowest;
    var high: nat;
    if draw.indices.Some? {
      var low;
      low, high := IndexBounds(draw, count);
    } else {
      HighestOfRun(draw, count);
      high := draw.first + count - 1;
      if high > 0xffffffff {
        return false;
      }
    }
    for i := 0 to |arrays|
      invariant forall k :: 0 <= k < i && arrays[k].Some? ==> InRange(arrays[k].value, high)
    {
      if arrays[i].Some? && !InRange(arrays[i].value, high) {
        return false;
      }
    }
    return true;
  }

  lemma CapacityDecides(f: Format, capacity: nat, limit: nat, n: nat)
    requires capacity <= MAX_VERTICES && (capacity > 0 ==> Fits(f, capacity, limit)) && n > 0
    requires forall n :: capacity < n <= MAX_VERTICES ==> !Fits(f, n, limit)
    ensures Fits(f, n, limit) <==> n <= capacity
  {
    if 0 < n <= capacity {
      FewerFit(f, n, capacity, limit);
    }
  }

  method Submit(cl: Client, f: Format, draw: Capture, mode: Mode, count: nat, chunks: seq<Chunk>, capacity: u32, limit: u32, taken: nat -> bool)
    returns (packets: seq<Packet>, complete: bool)
    requires ValidFormat(f) && draw.arrays == f.arrays && IndicesCover(draw, count) && Fits(f, capacity, limit)
    requires forall c :: c in chunks ==> 0 < c.n <= capacity && InDraw(c, count)
    ensures |packets| <= |chunks| && (complete ==> |packets| == |chunks|) && FirstRefused(taken, |packets|, complete)
    ensures forall k :: 0 <= k < |packets| ==>
              Captured(cl, draw, mode, limit, packets[k], chunks[k])
  {
    hide Fits, ValidFormat, InDraw, Captured, IndicesCover;
    packets := [];
    for k := 0 to |chunks|
      invariant |packets| == k && FirstRefused(taken, k, true)
      invariant forall i :: 0 <= i < k ==>
                  Captured(cl, draw, mode, limit, packets[i], chunks[i])
    {
      assert chunks[k] in chunks;
      if !taken(k) {
        return packets, false;
      }
      FewerFit(f, chunks[k].n, capacity, limit);
      var p := CapturePacket(cl, f, draw, mode, count, chunks[k], limit);
      packets := packets + [p];
    }
    complete := true;
  }
}
