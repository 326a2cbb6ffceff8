/**
 * The compact client-array layout of guest/include/gl-arrays.h, which the
 * frontend packs by and the kernel and host admit by. Words of flags are the
 * sets of their bits.
 */
module ArrayLayout {
  import opened Words

  const MAX_VERTICES: nat := 65536
  const RAW: nat := 31
  const NORMALIZED: int := 0x01000000

  /** DgArrayComponentBytes: BYTE..FLOAT and DOUBLE. */
  function ComponentBytes(type_: int): (n: nat)
    ensures n in {0, 1, 2, 4, 8}
  {
    match type_
    case 0x1400 => 1
    case 0x1401 => 1
    case 0x1402 => 2
    case 0x1403 => 2
    case 0x1404 => 4
    case 0x1405 => 4
    case 0x1406 => 4
    case 0x140a => 8
    case _ => 0
  }

  function TypeOf(d: u32): nat { d % 65536 }

  function SizeOf(d: u32): nat { d / 65536 % 256 }

  /** DgArraySlotRole: units 1-7 follow slot 3. */
  function SlotRole(slot: nat): nat {
    if 7 <= slot <= 13 then 3 else slot
  }

  /** DgRawArraySlot: the descriptor of an enabled conventional slot. */
  predicate RawArraySlot(slot: nat, d: u32) {
    var t, n, i := TypeOf(d), d / 65536, SlotRole(slot);
    && ComponentBytes(t) != 0
    && (if i == 0 then 2 else if i == 1 then 3 else 1) <= n <= 4
    && (i in {2, 4} ==> n == 3) && (i in {5, 6, 14} ==> n == 1)
    && (if i == 14 then t in {0x1406, 0x140a}
        else if i == 6 then t == 0x1401
        else if i == 5 then t in {0x1402, 0x1404, 0x1406, 0x140a}
        else (i in {1, 4} || t !in {0x1401, 0x1403, 0x1405}) && (i in {1, 2, 4} || t != 0x1400))
  }

  /** DgRawAttribDescriptor: the descriptor of an enabled generic attribute. */
  predicate RawAttribDescriptor(d: u32) {
    var t, n := TypeOf(d), SizeOf(d);
    && d / 0x1000000 in {0, 1} && ComponentBytes(t) != 0 && 1 <= n <= 4
    && (d / 0x1000000 == 1 ==> t != 0x1406 && t != 0x140a)
  }

  /** A section of `count` elements of `size` components of `unit` bytes, or none. */
  datatype Section = Absent | Present(unit: nat, size: nat)

  predicate WellFormed(s: Section) {
    s.Present? ==> s.unit in {1, 2, 4, 8} && 1 <= s.size <= 4
  }

  function SectionOf(enabled: bool, d: u32): Section {
    if enabled then Present(ComponentBytes(TypeOf(d)), SizeOf(d)) else Absent
  }

  /** Bytes of one vertex of the section, and of count vertices. */
  function ElementBytes(s: Section): nat {
    if s.Present? then s.unit * s.size else 0
  }

  function SectionBytes(s: Section, count: nat): nat {
    count * ElementBytes(s)
  }

  /** `(at + unit - 1) & ~(unit - 1)`. */
  function Align(at: nat, unit: nat): (r: nat)
    ensures at <= r
    ensures unit in {1, 2, 4, 8} ==> r < at + unit && r % unit == 0
  {
    if unit == 2 then (at + 1) / 2 * 2
    else if unit == 4 then (at + 3) / 4 * 4
    else if unit == 8 then (at + 7) / 8 * 8
    else at
  }

  /** The end of the sections before slot i. */
  function EndBefore(start: nat, s: seq<Section>, count: nat, i: nat): (e: nat)
    requires i <= |s|
    ensures start <= e
    decreases i, 0
  {
    if i == 0 then start
    else if s[i - 1].Absent? then EndBefore(start, s, count, i - 1)
    else OffsetOf(start, s, count, i - 1) + SectionBytes(s[i - 1], count)
  }

  /** Where section i begins. */
  function OffsetOf(start: nat, s: seq<Section>, count: nat, i: nat): (o: nat)
    requires i < |s|
    ensures EndBefore(start, s, count, i) <= o
    decreases i, 1
  {
    if s[i].Absent? then EndBefore(start, s, count, i) else Align(EndBefore(start, s, count, i), s[i].unit)
  }

  function Length(start: nat, s: seq<Section>, count: nat): (n: nat)
    ensures n % 4 == 0 && EndBefore(start, s, count, |s|) <= n < EndBefore(start, s, count, |s|) + 4
  {
    Align(EndBefore(start, s, count, |s|), 4)
  }

  predicate AllWellFormed(s: seq<Section>) {
    forall k :: 0 <= k < |s| ==> WellFormed(s[k])
  }

  /** Sections are aligned, in slot order, disjoint, and within the payload. */
  lemma {:induction false} SectionsAreDisjoint(start: nat, s: seq<Section>, count: nat, i: nat, j: nat)
    requires i < j <= |s| && s[i].Present? && AllWellFormed(s)
    ensures start <= OffsetOf(start, s, count, i) && s[i].unit > 0 && OffsetOf(start, s, count, i) % s[i].unit == 0
    ensures OffsetOf(start, s, count, i) + SectionBytes(s[i], count) <= EndBefore(start, s, count, j)
    ensures j < |s| ==> OffsetOf(start, s, count, i) + SectionBytes(s[i], count) <= OffsetOf(start, s, count, j)
    ensures OffsetOf(start, s, count, i) + SectionBytes(s[i], count) <= Length(start, s, count)
  {
    hide SectionBytes;
    assert WellFormed(s[i]);
    EndsGrow(start, s, count, i + 1, j);
    EndsGrow(start, s, count, j, |s|);
  }

  lemma {:induction false} EndsGrow(start: nat, s: seq<Section>, count: nat, i: nat, j: nat)
    requires i <= j <= |s|
    ensures EndBefore(start, s, count, i) <= EndBefore(start, s, count, j)
  {
    hide SectionBytes, Align;
    if i < j {
      EndsGrow(start, s, count, i, j - 1);
    }
  }

  /** More vertices never make a shorter payload. */
  lemma {:induction false} LayoutIsMonotone(start: nat, s: seq<Section>, n: nat, m: nat, i: nat)
    requires n <= m && i <= |s|
    ensures EndBefore(start, s, n, i) <= EndBefore(start, s, m, i)
    ensures i == |s| ==> Length(start, s, n) <= Length(start, s, m)
  {
    hide SectionBytes, Align;
    if i > 0 {
      LayoutIsMonotone(start, s, n, m, i - 1);
      if s[i - 1].Present? {
        AlignIsMonotone(EndBefore(start, s, n, i - 1), EndBefore(start, s, m, i - 1), s[i - 1].unit);
        SectionIsMonotone(n, m, s[i - 1]);
        assert OffsetOf(start, s, n, i - 1) <= OffsetOf(start, s, m, i - 1);
      }
    }
    if i == |s| {
      AlignIsMonotone(EndBefore(start, s, n, i), EndBefore(start, s, m, i), 4);
    }
  }

  lemma AlignIsMonotone(a: nat, b: nat, unit: nat)
    requires a <= b
    ensures Align(a, unit) <= Align(b, unit)
  {
  }

  lemma SectionIsMonotone(n: nat, m: nat, s: Section)
    requires n <= m
    ensures SectionBytes(s, n) <= SectionBytes(s, m)
  {
    MulMonotone(n, m, ElementBytes(s));
  }

  lemma MulMonotone(n: nat, m: nat, k: nat)
    requires n <= m
    ensures n * k <= m * k
  {
  }

  /** No 32-bit sum overflows: at most 65536 vertices of thirty-two sections of 32 bytes. */
  lemma {:induction false} LayoutFitsWord(start: nat, s: seq<Section>, count: nat, i: nat)
    requires i <= |s| <= 32 && count <= MAX_VERTICES && start <= 512 && AllWellFormed(s)
    ensures EndBefore(start, s, count, i) <= start + i * 0x200008
  {
    hide SectionBytes, Align;
    if i > 0 {
      LayoutFitsWord(start, s, count, i - 1);
      SectionIsSmall(s[i - 1], count);
      if s[i - 1].Present? {
        assert s[i - 1].unit in {1, 2, 4, 8} by {
          assert WellFormed(s[i - 1]);
        }
      }
    }
  }

  lemma SectionIsSmall(s: Section, count: nat)
    requires count <= MAX_VERTICES && WellFormed(s)
    ensures SectionBytes(s, count) <= 0x200000
  {
    ElementIsSmall(s);
    MulMonotone(count, MAX_VERTICES, ElementBytes(s));
  }

  lemma ElementIsSmall(s: Section)
    requires WellFormed(s)
    ensures ElementBytes(s) <= 32 && (s.Present? ==> 1 <= ElementBytes(s))
  {
  }

  // ---- The two draw layouts ----

  function Sections(enabled: set<nat>, d: seq<u32>): seq<Section> {
    seq(|d|, i requires 0 <= i < |d| => SectionOf(i in enabled, d[i]))
  }

  /** When DgRawArrayLayoutSlots admits a DrawArrays (7) or DrawArraysEXT (16) layout. */
  predicate ArrayAdmitted(mask: set<nat>, count: nat, d: seq<u32>, slots: nat) {
    && slots in {7, 16} && |d| == slots && RAW in mask && 0 in mask && count <= MAX_VERTICES
    && (forall b :: b in mask ==> b == RAW || b < (if slots == 16 then 15 else 7))
    && (forall i :: 0 <= i < slots ==> SlotOk(mask, d, i))
  }

  /** The slots of the attribute draw: sixteen conventional ones, then the generic attributes. */
  function AttribEnabled(mask: set<nat>, generic: set<nat>): set<nat> {
    (set b | b in mask && b < 16) + (set g | g in generic :: g + 16)
  }

  predicate SlotDescriptor(slot: nat, d: u32) {
    if slot >= 16 then RawAttribDescriptor(d) else RawArraySlot(slot, d)
  }

  /** An enabled slot's descriptor follows its rules; a disabled slot's is zero. */
  predicate SlotOk(enabled: set<nat>, d: seq<u32>, i: nat)
    requires i < |d|
  {
    if i in enabled then SlotDescriptor(i, d[i]) else d[i] == 0
  }

  /** When DgRawAttribLayout admits an attribute draw. */
  predicate AttribAdmitted(mask: set<nat>, generic: set<nat>, count: nat, d: seq<u32>) {
    && |d| == 32 && RAW in mask && (0 in mask || 0 in generic) && count <= MAX_VERTICES
    && (forall b :: b in mask ==> b == RAW || b < 15) && (forall g :: g in generic ==> g < 16)
    && (forall i :: 0 <= i < 32 ==> SlotOk(AttribEnabled(mask, generic), d, i))
  }

  lemma DescriptorIsWellFormed(slot: nat, d: u32)
    requires SlotDescriptor(slot, d)
    ensures WellFormed(SectionOf(true, d))
  {
  }

  /** The loop both layouts share: each enabled slot's offset, in order. */
  method PlaceSections(start: u32, enabled: set<nat>, count: u32, d: seq<u32>)
    returns (ok: bool, offsets: seq<u32>, length: u32)
    requires |d| <= 32 && count <= MAX_VERTICES && start <= 512
    ensures ok <==> forall i :: 0 <= i < |d| ==> SlotOk(enabled, d, i)
    ensures ok ==> AllWellFormed(Sections(enabled, d)) && length == Length(start, Sections(enabled, d), count)
    ensures ok ==> |offsets| == |d| && forall i :: 0 <= i < |d| ==>
              offsets[i] == if i in enabled then OffsetOf(start, Sections(enabled, d), count, i) else 0
  {
    hide Sections, SlotOk, SlotDescriptor, Align, SectionBytes, SectionOf, ComponentBytes, SizeOf, TypeOf, WellFormed;
    var at: u32 := start;
    ghost var s := Sections(enabled, d);
    offsets, length := [], 0;
    assert |s| == |d| by {
      SectionsLength(enabled, d);
    }
    for slot := 0 to |d|
      invariant forall i :: 0 <= i < slot ==> SlotOk(enabled, d, i) && WellFormed(s[i])
      invariant at == EndBefore(start, s, count, slot) && at <= 512 + slot * 0x200008
      invariant |offsets| == slot && forall i :: 0 <= i < slot ==>
                  offsets[i] == if i in enabled then OffsetOf(start, s, count, i) else 0
    {
      SlotStep(s, slot, enabled, d, count);
      if slot !in enabled {
        if d[slot] != 0 {
          return false, [], 0;
        }
        offsets := offsets + [0];
        continue;
      }
      if !SlotDescriptor(slot, d[slot]) {
        return false, [], 0;
      }
      var unit := ComponentBytes(TypeOf(d[slot]));
      at := Align(at, unit);
      offsets := offsets + [at];
      at := at + count * SizeOf(d[slot]) * unit;
    }
    return true, offsets, Align(at, 4);
  }

  lemma SectionsLength(enabled: set<nat>, d: seq<u32>)
    ensures |Sections(enabled, d)| == |d|
  {
  }

  lemma SlotStep(s: seq<Section>, slot: nat, enabled: set<nat>, d: seq<u32>, count: nat)
    requires slot < |d| && s == Sections(enabled, d) && count <= MAX_VERTICES
    ensures |s| == |d|
    ensures SlotOk(enabled, d, slot) <==> if slot in enabled then SlotDescriptor(slot, d[slot]) else d[slot] == 0
    ensures slot !in enabled ==> s[slot].Absent? && WellFormed(s[slot])
    ensures slot in enabled && SlotDescriptor(slot, d[slot]) ==>
              var unit := ComponentBytes(TypeOf(d[slot]));
              && s[slot] == Present(unit, SizeOf(d[slot])) && WellFormed(s[slot]) && unit in {1, 2, 4, 8}
              && SectionBytes(s[slot], count) == count * SizeOf(d[slot]) * unit <= 0x200000
  {
    hide SlotDescriptor, SizeOf, TypeOf, ComponentBytes;
    if slot in enabled && SlotDescriptor(slot, d[slot]) {
      DescriptorIsWellFormed(slot, d[slot]);
      SectionIsSmall(s[slot], count);
      MulReorder(count, ComponentBytes(TypeOf(d[slot])), SizeOf(d[slot]));
    }
  }

  lemma MulReorder(a: nat, b: nat, c: nat)
    ensures a * (b * c) == a * c * b
  {
    assert b * c == c * b;
    assert a * (c * b) == a * c * b;
  }

  /** DgRawArrayLayoutSlots. */
  method RawArrayLayoutSlots(mask: set<nat>, count: u32, d: seq<u32>, slots: nat)
    returns (ok: bool, offsets: seq<u32>, length: u32)
    requires |d| == slots
    ensures ok <==> ArrayAdmitted(mask, count, d, slots)
    ensures ok ==> AllWellFormed(Sections(mask, d)) && length == Length(slots * 4, Sections(mask, d), count)
    ensures ok ==> |offsets| == slots && forall i :: 0 <= i < slots ==>
              offsets[i] == if i in mask then OffsetOf(slots * 4, Sections(mask, d), count, i) else 0
  {
    hide Align, Length, OffsetOf, RawArraySlot, RawAttribDescriptor, AllWellFormed;
    if slots !in {7, 16} || RAW !in mask || 0 !in mask || count > MAX_VERTICES
       || !(forall b :: b in mask ==> b == RAW || b < (if slots == 16 then 15 else 7)) {
      return false, [], 0;
    }
    ok, offsets, length := PlaceSections(slots * 4, mask, count, d);
  }

  /** DgRawAttribLayout. */
  method RawAttribLayout(mask: set<nat>, generic: set<nat>, count: u32, d: seq<u32>)
    returns (ok: bool, offsets: seq<u32>, length: u32)
    requires |d| == 32
    ensures ok <==> AttribAdmitted(mask, generic, count, d)
    ensures ok ==> AllWellFormed(Sections(AttribEnabled(mask, generic), d))
    ensures ok ==> length == Length(128, Sections(AttribEnabled(mask, generic), d), count)
    ensures ok ==> |offsets| == 32 && forall i :: 0 <= i < 32 ==>
              offsets[i] == if i in AttribEnabled(mask, generic)
                            then OffsetOf(128, Sections(AttribEnabled(mask, generic), d), count, i) else 0
  {
    hide Align, Length, OffsetOf, SlotDescriptor, AttribEnabled, AllWellFormed;
    if RAW !in mask || !(0 in mask || 0 in generic) || count > MAX_VERTICES
       || !(forall b :: b in mask ==> b == RAW || b < 15) || !(forall g :: g in generic ==> g < 16) {
      return false, [], 0;
    }
    ok, offsets, length := PlaceSections(128, AttribEnabled(mask, generic), count, d);
  }
}
