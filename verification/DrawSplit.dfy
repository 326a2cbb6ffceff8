/**
 * Splitting a client draw into packets (guest/opengl/arrays.cpp, lines
 * 909-954) draws the primitives of the unsplit draw, in order and with their
 * orientation (section 2.6.1 of the OpenGL 1.1 specification).
 */
module DrawSplit {

  datatype Mode = Points | Lines | LineLoop | LineStrip | Triangles | TriangleStrip | TriangleFan | Quads | QuadStrip | Polygon

  /** A primitive by the indices of its vertices, in drawing order. */
  datatype Primitive =
    | Point(a: nat)
    | Line(a: nat, b: nat)
    | Triangle(a: nat, b: nat, c: nat)
    | Quad(a: nat, b: nat, c: nat, d: nat)
    | Poly(v: seq<nat>)

  /** How many primitives n vertices make. */
  function Assembled(mode: Mode, n: nat): nat {
    match mode
    case Points => n
    case Lines => n / 2
    case LineLoop => if n < 2 then 0 else n
    case LineStrip => if n < 2 then 0 else n - 1
    case Triangles => n / 3
    case TriangleStrip => if n < 3 then 0 else n - 2
    case TriangleFan => if n < 3 then 0 else n - 2
    case Quads => n / 4
    case QuadStrip => if n < 4 then 0 else n / 2 - 1
    case Polygon => if n < 3 then 0 else 1
  }

  /** The k-th primitive of a draw. Odd triangles of a strip exchange two vertices. */
  function PrimitiveAt(mode: Mode, v: seq<nat>, k: nat): Primitive
    requires k < Assembled(mode, |v|)
  {
    match mode
    case Points => Point(v[k])
    case Lines => Line(v[2 * k], v[2 * k + 1])
    case LineLoop => Line(v[k], v[if k + 1 == |v| then 0 else k + 1])
    case LineStrip => Line(v[k], v[k + 1])
    case Triangles => Triangle(v[3 * k], v[3 * k + 1], v[3 * k + 2])
    case TriangleStrip => if k % 2 == 0 then Triangle(v[k], v[k + 1], v[k + 2]) else Triangle(v[k + 1], v[k], v[k + 2])
    case TriangleFan => Triangle(v[0], v[k + 1], v[k + 2])
    case Quads => Quad(v[4 * k], v[4 * k + 1], v[4 * k + 2], v[4 * k + 3])
    case QuadStrip => Quad(v[2 * k], v[2 * k + 1], v[2 * k + 3], v[2 * k + 2])
    case Polygon => Poly(v)
  }

  function Assemble(mode: Mode, v: seq<nat>): (p: seq<Primitive>)
    ensures |p| == Assembled(mode, |v|)
  {
    seq(Assembled(mode, |v|), k requires 0 <= k < Assembled(mode, |v|) => PrimitiveAt(mode, v, k))
  }

  /**
   * Section 2.6.1 as a table: the k-th primitive is there exactly when its last
   * vertex is, and has these vertices.
   */
  lemma AssemblyIs(mode: Mode, v: seq<nat>, k: nat)
    ensures var there := match mode
              case Points => k < |v|
              case Lines => 2 * k + 1 < |v|
              case LineLoop => k < |v| && |v| > 1
              case LineStrip => k + 1 < |v|
              case Triangles => 3 * k + 2 < |v|
              case TriangleStrip => k + 2 < |v|
              case TriangleFan => k + 2 < |v|
              case Quads => 4 * k + 3 < |v|
              case QuadStrip => 2 * k + 3 < |v|
              case Polygon => k == 0 && |v| > 2;
            && (k < |Assemble(mode, v)| <==> there)
            && (there ==> match mode
                  case Points => Assemble(mode, v)[k] == Point(v[k])
                  case Lines => Assemble(mode, v)[k] == Line(v[2 * k], v[2 * k + 1])
                  case LineLoop => Assemble(mode, v)[k] == if k == |v| - 1 then Line(v[k], v[0]) else Line(v[k], v[k + 1])
                  case LineStrip => Assemble(mode, v)[k] == Line(v[k], v[k + 1])
                  case Triangles => Assemble(mode, v)[k] == Triangle(v[3 * k], v[3 * k + 1], v[3 * k + 2])
                  case TriangleStrip =>
                    Assemble(mode, v)[k] == if k % 2 == 1 then Triangle(v[k + 1], v[k], v[k + 2]) else Triangle(v[k], v[k + 1], v[k + 2])
                  case TriangleFan => Assemble(mode, v)[k] == Triangle(v[0], v[k + 1], v[k + 2])
                  case Quads => Assemble(mode, v)[k] == Quad(v[4 * k], v[4 * k + 1], v[4 * k + 2], v[4 * k + 3])
                  case QuadStrip => Assemble(mode, v)[k] == Quad(v[2 * k], v[2 * k + 1], v[2 * k + 3], v[2 * k + 2])
                  case Polygon => Assemble(mode, v)[k] == Poly(v))
  {
  }

  /** One submitted packet: n vertices from `at` on; a later fan packet repeats vertices 0 and at-1 first. */
  datatype Chunk = Chunk(at: nat, n: nat, fan: bool)

  /** The capture's choice of the v-th vertex of a packet. */
  function Offset(c: Chunk, v: nat): nat {
    if c.fan && c.at > 0 then (if v == 0 then 0 else if v == 1 then c.at - 1 else c.at + v - 2) else c.at + v
  }

  ghost predicate InDraw(c: Chunk, count: nat) {
    if c.fan then 2 <= c.at && 2 <= c.n && c.at + c.n - 2 <= count else c.at + c.n <= count
  }

  function Vertices(c: Chunk): seq<nat> {
    seq(c.n, v requires 0 <= v => Offset(c, v))
  }

  function Drawn(mode: Mode, chunks: seq<Chunk>): seq<Primitive> {
    if chunks == [] then [] else Drawn(mode, chunks[..|chunks| - 1]) + Assemble(mode, Vertices(chunks[|chunks| - 1]))
  }

  function Whole(count: nat): seq<nat> {
    seq(count, v requires 0 <= v => v)
  }

  /** The primitives drawn when the loop has reached vertex `at`. */
  function Done(mode: Mode, at: nat): nat {
    match mode
    case Points => at
    case Lines => at / 2
    case LineStrip => at
    case Triangles => at / 3
    case TriangleStrip => at
    case TriangleFan => if at < 2 then 0 else at - 2
    case Quads => at / 4
    case QuadStrip => at / 2
    case LineLoop => if at == 0 then 0 else Assembled(mode, at)
    case Polygon => if at == 0 then 0 else Assembled(mode, at)
  }

  /** Where a packet may begin so that no primitive straddles the split or changes its parity. */
  ghost predicate Boundary(mode: Mode, count: nat, at: nat) {
    at < count &&
    (at == 0 ||
     match mode
     case Points => true
     case Lines => at % 2 == 0
     case LineStrip => at + 2 <= count
     case Triangles => at % 3 == 0
     case TriangleStrip => at % 2 == 0 && at + 3 <= count
     case Quads => at % 4 == 0
     case QuadStrip => at % 2 == 0 && at + 3 <= count
     case TriangleFan => at >= 4
     case LineLoop => false
     case Polygon => false)
  }

  /** The loop's packet size at vertex `at`. */
  function PacketSize(mode: Mode, count: nat, at: nat, capacity: nat): int {
    var n := count - at + if mode == TriangleFan && at != 0 then 2 else 0;
    if n <= capacity then n
    else if mode in {Lines, TriangleStrip, QuadStrip} then capacity - capacity % 2
    else if mode == Triangles then capacity - capacity % 3
    else if mode == Quads then capacity - capacity % 4
    else capacity
  }

  /** Where the loop goes on after a packet of n vertices. */
  function NextAt(mode: Mode, count: nat, at: nat, n: nat): int {
    var next := if mode == TriangleFan && at != 0 then at + n - 2 else at + n;
    if next >= count then next
    else if mode == LineStrip then next - 1
    else if mode == TriangleStrip || mode == QuadStrip then next - 2
    else next
  }

  ghost predicate Splittable(mode: Mode, count: nat, capacity: nat) {
    capacity >= 4 && (mode in {LineLoop, Polygon} ==> count <= capacity)
  }

  function PacketAt(mode: Mode, count: nat, at: nat, capacity: nat): Chunk
    requires Splittable(mode, count, capacity) && at < count
  {
    Chunk(at, PacketSize(mode, count, at, capacity), mode == TriangleFan && at != 0)
  }

  /** The number of primitives drawn once the packet is out. */
  function DoneAfter(mode: Mode, count: nat, c: Chunk): int {
    var next := NextAt(mode, count, c.at, c.n);
    if 0 <= next < count then Done(mode, next) else Assembled(mode, count)
  }

  ghost predicate Advances(mode: Mode, count: nat, at: nat, capacity: nat)
    requires Splittable(mode, count, capacity) && at < count
  {
    var c := PacketAt(mode, count, at, capacity);
    var next := NextAt(mode, count, at, c.n);
    && 0 < c.n <= capacity && at < next <= count && InDraw(c, count)
    && (next < count ==> Boundary(mode, count, next))
    && DoneAfter(mode, count, c) - Done(mode, at) == Assembled(mode, c.n)
    && Done(mode, at) <= DoneAfter(mode, count, c) <= Assembled(mode, count)
  }

  lemma AdvancesWhole(mode: Mode, count: nat, at: nat, capacity: nat)
    requires Splittable(mode, count, capacity) && Boundary(mode, count, at) && mode in {LineLoop, Polygon}
    ensures Advances(mode, count, at, capacity)
  {
  }

  lemma AdvancesPoints(count: nat, at: nat, capacity: nat)
    requires Splittable(Points, count, capacity) && Boundary(Points, count, at)
    ensures Advances(Points, count, at, capacity)
  {
  }

  lemma AdvancesLineStrip(count: nat, at: nat, capacity: nat)
    requires Splittable(LineStrip, count, capacity) && Boundary(LineStrip, count, at)
    ensures Advances(LineStrip, count, at, capacity)
  {
  }

  lemma AdvancesFan(mode: Mode, count: nat, at: nat, capacity: nat)
    requires Splittable(mode, count, capacity) && Boundary(mode, count, at) && mode == TriangleFan
    ensures Advances(mode, count, at, capacity)
  {
  }

  lemma AdvancesLines(mode: Mode, count: nat, at: nat, capacity: nat)
    requires Splittable(mode, count, capacity) && Boundary(mode, count, at) && mode == Lines
    ensures Advances(mode, count, at, capacity)
  {
  }

  lemma AdvancesTriangleStrip(mode: Mode, count: nat, at: nat, capacity: nat)
    requires Splittable(mode, count, capacity) && Boundary(mode, count, at) && mode == TriangleStrip
    ensures Advances(mode, count, at, capacity)
  {
  }

  lemma AdvancesQuadStrip(mode: Mode, count: nat, at: nat, capacity: nat)
    requires Splittable(mode, count, capacity) && Boundary(mode, count, at) && mode == QuadStrip
    ensures Advances(mode, count, at, capacity)
  {
  }

  lemma AdvancesTriangles(mode: Mode, count: nat, at: nat, capacity: nat)
    requires Splittable(mode, count, capacity) && Boundary(mode, count, at) && mode == Triangles
    ensures Advances(mode, count, at, capacity)
  {
  }

  lemma AdvancesQuads(mode: Mode, count: nat, at: nat, capacity: nat)
    requires Splittable(mode, count, capacity) && Boundary(mode, count, at) && mode == Quads
    ensures Advances(mode, count, at, capacity)
  {
  }

  /**
   * Each packet fits, advances, leaves the next one at a boundary, and makes as
   * many primitives as the whole draw has between its ends.
   */
  lemma PacketAdvances(mode: Mode, count: nat, at: nat, capacity: nat)
    requires Splittable(mode, count, capacity) && Boundary(mode, count, at)
    ensures Advances(mode, count, at, capacity)
  {
    hide Advances, Boundary;
    match mode
    case Points => AdvancesPoints(count, at, capacity);
    case Lines => AdvancesLines(mode, count, at, capacity);
    case LineLoop => AdvancesWhole(mode, count, at, capacity);
    case LineStrip => AdvancesLineStrip(count, at, capacity);
    case Triangles => AdvancesTriangles(mode, count, at, capacity);
    case TriangleStrip => AdvancesTriangleStrip(mode, count, at, capacity);
    case TriangleFan => AdvancesFan(mode, count, at, capacity);
    case Quads => AdvancesQuads(mode, count, at, capacity);
    case QuadStrip => AdvancesQuadStrip(mode, count, at, capacity);
    case Polygon => AdvancesWhole(mode, count, at, capacity);
  }

  /** A primitive of vertices in a row, shifted by a boundary, is a later primitive of the whole. */
  lemma ShiftedPrimitive(mode: Mode, v: seq<nat>, w: seq<nat>, at: nat, k: nat)
    requires at + |v| <= |w| && mode !in {TriangleFan, LineLoop, Polygon} && Boundary(mode, |w|, at)
    requires forall i :: 0 <= i < |v| ==> v[i] == w[at + i]
    requires k < Assembled(mode, |v|) && Done(mode, at) + k < Assembled(mode, |w|)
    ensures PrimitiveAt(mode, v, k) == PrimitiveAt(mode, w, Done(mode, at) + k)
  {
    hide Boundary, Assembled, PrimitiveAt;
    match mode
    case Points => ShiftedByOne(mode, v, w, at, k);
    case LineStrip => ShiftedByOne(mode, v, w, at, k);
    case TriangleStrip => ShiftedByOne(mode, v, w, at, k);
    case Lines => ShiftedByTwo(mode, v, w, at, k);
    case QuadStrip => ShiftedByTwo(mode, v, w, at, k);
    case Triangles => ShiftedByThree(v, w, at, k);
    case Quads => ShiftedByFour(v, w, at, k);
  }

  lemma ShiftedByOne(mode: Mode, v: seq<nat>, w: seq<nat>, at: nat, k: nat)
    requires at + |v| <= |w| && mode in {Points, LineStrip, TriangleStrip} && Boundary(mode, |w|, at)
    requires forall i :: 0 <= i < |v| ==> v[i] == w[at + i]
    requires k < Assembled(mode, |v|) && at + k < Assembled(mode, |w|)
    ensures Done(mode, at) == at && PrimitiveAt(mode, v, k) == PrimitiveAt(mode, w, at + k)
  {
    assert mode == TriangleStrip ==> (at + k) % 2 == k % 2;
  }

  lemma ShiftedByTwo(mode: Mode, v: seq<nat>, w: seq<nat>, at: nat, k: nat)
    requires at + |v| <= |w| && mode in {Lines, QuadStrip} && Boundary(mode, |w|, at)
    requires forall i :: 0 <= i < |v| ==> v[i] == w[at + i]
    requires k < Assembled(mode, |v|) && at / 2 + k < Assembled(mode, |w|)
    ensures Done(mode, at) == at / 2 && PrimitiveAt(mode, v, k) == PrimitiveAt(mode, w, at / 2 + k)
  {
    assert 2 * (at / 2 + k) == at + 2 * k;
  }

  lemma ShiftedByThree(v: seq<nat>, w: seq<nat>, at: nat, k: nat)
    requires at + |v| <= |w| && Boundary(Triangles, |w|, at)
    requires forall i :: 0 <= i < |v| ==> v[i] == w[at + i]
    requires k < Assembled(Triangles, |v|) && at / 3 + k < Assembled(Triangles, |w|)
    ensures Done(Triangles, at) == at / 3 && PrimitiveAt(Triangles, v, k) == PrimitiveAt(Triangles, w, at / 3 + k)
  {
    assert 3 * (at / 3 + k) == at + 3 * k;
  }

  lemma ShiftedByFour(v: seq<nat>, w: seq<nat>, at: nat, k: nat)
    requires at + |v| <= |w| && Boundary(Quads, |w|, at)
    requires forall i :: 0 <= i < |v| ==> v[i] == w[at + i]
    requires k < Assembled(Quads, |v|) && at / 4 + k < Assembled(Quads, |w|)
    ensures Done(Quads, at) == at / 4 && PrimitiveAt(Quads, v, k) == PrimitiveAt(Quads, w, at / 4 + k)
  {
    assert 4 * (at / 4 + k) == at + 4 * k;
  }

  lemma FanPrimitive(count: nat, at: nat, n: nat, k: nat)
    requires 4 <= at && 2 <= n && at + n - 2 <= count && k < Assembled(TriangleFan, n)
    ensures PrimitiveAt(TriangleFan, Vertices(Chunk(at, n, true)), k) == PrimitiveAt(TriangleFan, Whole(count), at - 2 + k)
  {
  }

  /** The packet's k-th primitive is the whole draw's next but k. */
  lemma PacketPrimitive(mode: Mode, count: nat, at: nat, capacity: nat, k: nat)
    requires Splittable(mode, count, capacity) && Boundary(mode, count, at) && Advances(mode, count, at, capacity)
    requires k < Assembled(mode, PacketAt(mode, count, at, capacity).n) && Done(mode, at) + k < Assembled(mode, count)
    ensures PrimitiveAt(mode, Vertices(PacketAt(mode, count, at, capacity)), k) == PrimitiveAt(mode, Whole(count), Done(mode, at) + k)
  {
    hide Assembled, PrimitiveAt, Vertices, Whole;
    var c := PacketAt(mode, count, at, capacity);
    if mode in {LineLoop, Polygon} {
      WholeInOne(count);
    } else if c.fan {
      FanPrimitive(count, at, c.n, k);
    } else if mode == TriangleFan {
      FirstFanPacket(count, c.n, k);
    } else {
      ShiftedVertices(count, at, c.n);
      ShiftedPrimitive(mode, Vertices(c), Whole(count), at, k);
    }
  }

  lemma ShiftedVertices(count: nat, at: nat, n: nat)
    requires at + n <= count
    ensures |Vertices(Chunk(at, n, false))| == n && |Whole(count)| == count
    ensures forall i :: 0 <= i < n ==> Vertices(Chunk(at, n, false))[i] == Whole(count)[at + i]
  {
  }

  lemma WholeInOne(count: nat)
    ensures Vertices(Chunk(0, count, false)) == Whole(count)
  {
  }

  lemma FirstFanPacket(count: nat, n: nat, k: nat)
    requires n <= count && k < Assembled(TriangleFan, n)
    ensures k < Assembled(TriangleFan, count)
    ensures PrimitiveAt(TriangleFan, Vertices(Chunk(0, n, false)), k) == PrimitiveAt(TriangleFan, Whole(count), k)
  {
  }

  /** The packet draws the next primitives of the whole draw. */
  lemma PacketDrawsNext(mode: Mode, count: nat, at: nat, capacity: nat)
    requires Splittable(mode, count, capacity) && Boundary(mode, count, at)
    ensures var c := PacketAt(mode, count, at, capacity);
            && (c.fan ==> c.at > 0) && Done(mode, at) <= DoneAfter(mode, count, c) <= Assembled(mode, count)
            && Assemble(mode, Vertices(c)) == Assemble(mode, Whole(count))[Done(mode, at)..DoneAfter(mode, count, c)]
  {
    hide Done, DoneAfter, Assembled, PrimitiveAt, Splittable, NextAt, PacketSize;
    PacketAdvances(mode, count, at, capacity);
    var c := PacketAt(mode, count, at, capacity);
    forall k | 0 <= k < Assembled(mode, c.n)
      ensures Assemble(mode, Vertices(c))[k] == Assemble(mode, Whole(count))[Done(mode, at) + k]
    {
      PacketPrimitive(mode, count, at, capacity, k);
    }
  }

  lemma PacketIsLoopBody(mode: Mode, count: nat, at: nat, capacity: nat)
    requires Splittable(mode, count, capacity) && Boundary(mode, count, at)
    ensures var c := PacketAt(mode, count, at, capacity);
            var next := NextAt(mode, count, at, c.n);
            && 0 < c.n <= capacity && InDraw(c, count) && at < next <= count
            && 0 <= DoneAfter(mode, count, c) <= |Assemble(mode, Whole(count))|
            && (if next < count then Boundary(mode, count, next) && DoneAfter(mode, count, c) == Done(mode, next)
                else DoneAfter(mode, count, c) == |Assemble(mode, Whole(count))|)
  {
    hide Assembled, Boundary, Done;
    PacketAdvances(mode, count, at, capacity);
  }

  lemma DrawnThrough(mode: Mode, count: nat, at: nat, capacity: nat, chunks: seq<Chunk>)
    requires Splittable(mode, count, capacity) && Boundary(mode, count, at)
    requires Done(mode, at) <= |Assemble(mode, Whole(count))|
    requires Drawn(mode, chunks) == Assemble(mode, Whole(count))[..Done(mode, at)]
    ensures var c := PacketAt(mode, count, at, capacity);
            && 0 <= DoneAfter(mode, count, c) <= |Assemble(mode, Whole(count))|
            && Drawn(mode, chunks + [c]) == Assemble(mode, Whole(count))[..DoneAfter(mode, count, c)]
  {
    hide Drawn, DoneAfter, Done, PacketSize, Splittable, PrimitiveAt, Assembled;
    PacketDrawsNext(mode, count, at, capacity);
    DrawnOneMore(mode, chunks, PacketAt(mode, count, at, capacity));
  }

  /** The submission loop of ClientDraw. */
  method Split(mode: Mode, count: nat, capacity: nat) returns (chunks: seq<Chunk>)
    requires Splittable(mode, count, capacity)
    ensures forall c :: c in chunks ==> 0 < c.n <= capacity && InDraw(c, count)
    ensures Drawn(mode, chunks) == Assemble(mode, Whole(count))
  {
    hide Done, DoneAfter, Assembled, PrimitiveAt, Boundary, Assemble, Drawn, InDraw, Whole;
    chunks := [];
    var at: nat := 0;
    NothingDrawn(mode, count);
    ghost var done: nat := 0;
    while at < count
      invariant at < count ==> Boundary(mode, count, at) && done == Done(mode, at)
      invariant at >= count ==> done == |Assemble(mode, Whole(count))|
      invariant done <= |Assemble(mode, Whole(count))| && Drawn(mode, chunks) == Assemble(mode, Whole(count))[..done]
      invariant forall c :: c in chunks ==> 0 < c.n <= capacity && InDraw(c, count)
      decreases count - at
    {
      PacketIsLoopBody(mode, count, at, capacity);
      DrawnThrough(mode, count, at, capacity, chunks);
      ghost var c := PacketAt(mode, count, at, capacity);
      var n := count - at;
      var fan := mode == TriangleFan && at != 0;
      if fan {
        n := n + 2;
      }
      if n > capacity {
        n := capacity;
        if mode == Lines || mode == TriangleStrip || mode == QuadStrip {
          n := n - n % 2;
        }
        if mode == Triangles {
          n := n - n % 3;
        }
        if mode == Quads {
          n := n - n % 4;
        }
      }
      chunks := chunks + [Chunk(at, n, fan)];
      done := DoneAfter(mode, count, c);
      at := if fan then at + n - 2 else at + n;
      if at >= count {
        break;
      }
      if mode == LineStrip {
        at := at - 1;
      }
      if mode == TriangleStrip || mode == QuadStrip {
        at := at - 2;
      }
    }
  }

  lemma DrawnOneMore(mode: Mode, chunks: seq<Chunk>, c: Chunk)
    ensures Drawn(mode, chunks + [c]) == Drawn(mode, chunks) + Assemble(mode, Vertices(c))
  {
    assert (chunks + [c])[..|chunks|] == chunks;
  }

  lemma NothingDrawn(mode: Mode, count: nat)
    ensures count > 0 ==> Boundary(mode, count, 0) && Done(mode, 0) == 0
    ensures count == 0 ==> |Assemble(mode, Whole(count))| == 0
    ensures Drawn(mode, []) == []
  {
  }
}
