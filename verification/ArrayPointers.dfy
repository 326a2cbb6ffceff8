/**
 * The calls that set client arrays (guest/opengl/arrays.cpp, lines 58-118;
 * guest/opengl/attrib.cpp, lines 156-200) against the layouts that the host
 * admits (guest/include/gl-arrays.h): whatever they accept can be drawn.
 */
module ArrayPointers {
  import opened ArrayLayout
  import opened VertexCapture
  import opened ClientDraw
  import opened Words

  const BGRA: int := 0x80e1
  const BYTE: nat := 0x1400
  const UNSIGNED_BYTE: nat := 0x1401
  const SHORT: nat := 0x1402
  const UNSIGNED_SHORT: nat := 0x1403
  const INT: nat := 0x1404
  const UNSIGNED_INT: nat := 0x1405
  const FLOAT: nat := 0x1406
  const DOUBLE: nat := 0x140a

  datatype GlError = InvalidValue | InvalidEnum | InvalidOperation
  datatype Result = Set(array: ClientArray) | Raised(error: GlError)

  /** What was negotiated. */
  datatype Support = Support(secondary: bool, fog: bool, bgra: bool)

  /** Pointer, for the conventional array `index`: 3 stands for the client's texture unit, 14 for the fog coordinate. */
  function Pointer(has: Support, index: nat, size: int, type_: nat, stride: int, pointer: nat): Result {
    var bgra := size == BGRA && (index == 1 || index == 4) && has.bgra;
    if index == 4 && !has.secondary then Raised(GlError.InvalidOperation)
    else if index == 4 && size != 3 && !bgra then Raised(GlError.InvalidValue)
    else if index == 14 && !has.fog then Raised(GlError.InvalidOperation)
    else if index == 14 && type_ != FLOAT && type_ != DOUBLE then Raised(GlError.InvalidEnum)
    else if stride < 0 || (!bgra && (size < (if index == 0 then 2 else if index == 1 then 3 else 1) || size > 4)) then Raised(GlError.InvalidValue)
    else if index == 5 && type_ !in {SHORT, INT, FLOAT, DOUBLE} then Raised(GlError.InvalidEnum)
    else if index == 6 && type_ != UNSIGNED_BYTE then Raised(GlError.InvalidEnum)
    else if index != 5 && index != 6
            && (ComponentBytes(type_) == 0
                || (index != 1 && index != 4 && type_ in {UNSIGNED_BYTE, UNSIGNED_SHORT, UNSIGNED_INT})
                || (index != 1 && index != 2 && index != 4 && type_ == BYTE)) then Raised(GlError.InvalidEnum)
    else if bgra && type_ != UNSIGNED_BYTE then Raised(GlError.InvalidOperation)
    else Set(ClientArray(if bgra then 4 else size, stride, type_, pointer, false, bgra))
  }

  /** glVertexAttribPointerARB on one of the generic arrays. */
  function AttribPointer(has: Support, size: int, type_: nat, normalized: bool, stride: int, pointer: nat): Result {
    var bgra := size == BGRA && has.bgra;
    if (!bgra && (size < 1 || size > 4)) || stride < 0 then Raised(GlError.InvalidValue)
    else if ComponentBytes(type_) == 0 then Raised(GlError.InvalidEnum)
    else if bgra && (type_ != UNSIGNED_BYTE || !normalized) then Raised(GlError.InvalidOperation)
    else Set(ClientArray(if bgra then 4 else size, stride, type_, pointer, normalized, bgra))
  }

  /** The sizes that the calls pass for arrays without a size argument. */
  predicate SizeGiven(index: nat, size: int) {
    (index == 2 ==> size == 3) && (index in {5, 6, 14} ==> size == 1)
  }

  /** A new context's arrays: floats but for the edge flags. */
  function Initial(slot: nat): ClientArray {
    var i := SlotRole(slot);
    ClientArray(if i in {5, 6, 14} then 1 else if i in {2, 4} then 3 else 4, 0, if i == 6 then UNSIGNED_BYTE else FLOAT, 0, false, false)
  }

  /** A conventional or generic slot holds its first array or what a call set. */
  ghost predicate Accepted(slot: nat, a: ClientArray) {
    if a == Initial(slot) then true
    else if slot >= 16 then exists has, size, normalized, stride :: AttribPointer(has, size, a.Type, normalized, stride, a.Pointer) == Set(a)
    else exists has, size, stride ::
           SizeGiven(SlotRole(slot), size) && Pointer(has, SlotRole(slot), size, a.Type, stride, a.Pointer) == Set(a)
  }

  /** What the host's layouts take in a slot, by the array's own fields. */
  predicate SlotTakes(slot: nat, a: ClientArray) {
    if slot >= 16 then true
    else match SlotRole(slot)
      case 0 => a.Size >= 2 && a.Type in {SHORT, INT, FLOAT, DOUBLE}
      case 1 => a.Size >= 3
      case 2 => a.Size == 3 && a.Type in {BYTE, SHORT, INT, FLOAT, DOUBLE}
      case 3 => a.Type in {SHORT, INT, FLOAT, DOUBLE}
      case 4 => a.Size == 3 || a.Bgra
      case 5 => a.Size == 1 && a.Type in {SHORT, INT, FLOAT, DOUBLE}
      case 6 => a.Size == 1 && a.Type == UNSIGNED_BYTE
      case 14 => a.Size == 1 && a.Type in {FLOAT, DOUBLE}
      case _ => false
  }

  /** The calls and the host's layouts agree on each slot: what a call can set is what can be drawn. */
  lemma AcceptedIff(slot: nat, a: ClientArray)
    requires slot < 32 && slot != 15
    ensures Accepted(slot, a) <==>
              ValidArray(a) && SlotTakes(slot, a) && if slot < 16 then !a.Normalized else a.Bgra ==> a.Normalized
  {
    if ValidArray(a) && SlotTakes(slot, a) && (if slot < 16 then !a.Normalized else a.Bgra ==> a.Normalized) {
      var has, size := Support(true, true, true), if a.Bgra then BGRA else a.Size;
      if slot >= 16 {
        assert AttribPointer(has, size, a.Type, a.Normalized, a.Stride, a.Pointer) == Set(a);
      } else {
        assert SizeGiven(SlotRole(slot), size) && Pointer(has, SlotRole(slot), size, a.Type, a.Stride, a.Pointer) == Set(a);
      }
    }
  }

  /** A call stores its arguments exactly when what they name is negotiated and the slot takes it; else it changes nothing. */
  lemma PointerSetsIff(has: Support, index: nat, size: int, type_: nat, stride: nat, pointer: nat)
    requires (index <= 6 || index == 14) && SizeGiven(index, size)
    ensures Pointer(has, index, size, type_, stride, pointer).Set? <==>
              && (1 <= size <= 4 || (size == BGRA && has.bgra))
              && (index == 4 ==> has.secondary) && (index == 14 ==> has.fog)
              && var a := ClientArray(if size == BGRA then 4 else size, stride, type_, pointer, false, size == BGRA);
              ValidArray(a) && SlotTakes(index, a)
    ensures Pointer(has, index, size, type_, stride, pointer).Set? ==>
              Pointer(has, index, size, type_, stride, pointer)
              == Set(ClientArray(if size == BGRA then 4 else size, stride, type_, pointer, false, size == BGRA))
    ensures forall k :: k < 0 ==> Pointer(has, index, size, type_, k, pointer).Raised?
  {
  }

  lemma DescriptorTaken(slot: nat, a: ClientArray)
    requires slot < 32 && slot != 15 && ValidArray(a)
    ensures Descriptor(slot, a) < WORD && Descriptor(slot, a) != 0
    ensures SlotDescriptor(slot, Descriptor(slot, a)) <==> SlotTakes(slot, a)
    ensures slot >= 16 ==> (Descriptor(slot, a) >= NORMALIZED <==> a.Normalized && a.Type !in {FLOAT, DOUBLE})
  {
    DescriptorIsSection(slot, a);
    var d, t, n := Descriptor(slot, a), WireType(slot, a), WireSize(slot, a);
    assert t < 65536 && n <= 4;
    if slot < 16 {
      assert d == t + n * 65536;
      assert d % 65536 == t && d / 65536 == n;
    }
  }

  /** The layout check refuses no format that the calls allow: only a draw without positions or of too many vertices. */
  lemma AdmittedIff(f: Format, n: nat)
    requires ValidFormat(f) && (|f.arrays| > 15 ==> f.arrays[15].None?)
    ensures Admitted(f, n) <==>
              && n <= MAX_VERTICES && (f.arrays[0].Some? || (|f.arrays| == 32 && f.arrays[16].Some?))
              && forall i :: 0 <= i < |f.arrays| && f.arrays[i].Some? ==> SlotTakes(i, f.arrays[i].value)
  {
    hide SlotTakes, SlotDescriptor, Descriptor;
    var enabled := if |f.arrays| == 32 then AttribEnabled(f.mask, f.generic) else f.mask;
    forall i | 0 <= i < |f.arrays|
      ensures SlotOk(enabled, DescriptorsOf(f.arrays), i) <==> (f.arrays[i].Some? ==> SlotTakes(i, f.arrays[i].value))
    {
      if f.arrays[i].Some? {
        DescriptorTaken(i, f.arrays[i].value);
        SmallWord(SlotWord(f.arrays, i));
      }
    }
  }
}
