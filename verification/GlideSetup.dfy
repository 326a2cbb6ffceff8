/**
 * Glide 3 primitive assembly (guest/glide/glide3-core.h, lines 259-298 and
 * 336-395): the emulated triangle setup unit and the draw call over it.
 * Vertices are converted values; a null pointer is None.
 */
module GlideSetup {

  datatype Option<T> = None | Some(value: T)
  datatype Primitive<V> = Point(a: V) | Line(a: V, b: V) | Triangle(a: V, b: V, c: V)
  datatype Mode = Points | LineStrip | Lines | Triangles | Strip | Fan | Polygon | StripContinue | FanContinue | Unknown

  /** The setup unit's registers. */
  datatype Unit<V> = Unit(v0: V, v1: V, count: nat, parity: nat, fan: bool)

  predicate Valid<V>(u: Unit<V>) {
    u.count <= 2 && u.parity <= 1
  }

  // ---- Assembly, as a definition of its own ----

  function Positive(n: int): nat {
    if n > 0 then n else 0
  }

  /** Triangle k of a strip; every other one has its first two vertices exchanged. */
  function StripTriangle<V>(parity: nat, ws: seq<V>, k: nat): Primitive<V>
    requires k + 2 < |ws|
  {
    if (k + parity) % 2 == 0 then Triangle(ws[k], ws[k + 1], ws[k + 2]) else Triangle(ws[k + 1], ws[k], ws[k + 2])
  }

  function StripTriangles<V>(parity: nat, ws: seq<V>): seq<Primitive<V>> {
    seq(Positive(|ws| - 2), k requires 0 <= k < Positive(|ws| - 2) => StripTriangle(parity, ws, k))
  }

  function FanTriangles<V>(ws: seq<V>): seq<Primitive<V>> {
    seq(Positive(|ws| - 2), k requires 0 <= k < Positive(|ws| - 2) => Triangle(ws[0], ws[k + 1], ws[k + 2]))
  }

  /** The vertices the unit still holds. */
  function Kept<V>(u: Unit<V>): seq<V> {
    if u.count == 0 then [] else if u.count == 1 then [u.v0] else [u.v0, u.v1]
  }

  function Assembled<V>(u: Unit<V>, vs: seq<V>): seq<Primitive<V>> {
    if u.fan then FanTriangles(Kept(u) + vs) else StripTriangles(u.parity, Kept(u) + vs)
  }

  // ---- The unit, one vertex at a time ----

  /** setup_vertex. */
  function Fed1<V>(u: Unit<V>, n: V): (Unit<V>, seq<Primitive<V>>) {
    if u.count == 0 then (u.(v0 := n, count := 1), [])
    else if u.count == 1 then (u.(v1 := n, count := 2), [])
    else if u.fan then (u.(v1 := n), [Triangle(u.v0, u.v1, n)])
    else (u.(v0 := u.v1, v1 := n, parity := 1 - u.parity % 2),
          [if u.parity != 0 then Triangle(u.v1, u.v0, n) else Triangle(u.v0, u.v1, n)])
  }

  function Fed<V>(u: Unit<V>, vs: seq<V>): (Unit<V>, seq<Primitive<V>>) {
    if vs == [] then (u, [])
    else
      var before := Fed(u, vs[..|vs| - 1]);
      var last := Fed1(before.0, vs[|vs| - 1]);
      (last.0, before.1 + last.1)
  }

  function Reset<V>(u: Unit<V>, fan: bool): Unit<V> {
    u.(count := 0, parity := 0, fan := fan)
  }

  /** setup_after_triangle. */
  function AfterTriangle<V>(u: Unit<V>, b: V, c: V): Unit<V> {
    Unit(b, c, 2, 1, false)
  }

  /** What the unit holds once it has seen all of ws. */
  ghost predicate Holds<V>(u: Unit<V>, u2: Unit<V>, ws: seq<V>) {
    var n := |ws|;
    && u2.fan == u.fan && u2.count == (if n < 2 then n else 2)
    && (n > 0 ==> u2.v0 == if n >= 2 && !u.fan then ws[n - 2] else ws[0])
    && (n > 1 ==> u2.v1 == ws[n - 1])
    && u2.parity == if u.fan then u.parity else (u.parity + Positive(n - 2)) % 2
  }

  /** The unit, fed vertex by vertex, emits the assembly of all it was fed. */
  lemma {:induction false} FedIsAssembled<V>(u: Unit<V>, vs: seq<V>)
    requires Valid(u)
    ensures Valid(Fed(u, vs).0) && Holds(u, Fed(u, vs).0, Kept(u) + vs)
    ensures Fed(u, vs).1 == Assembled(u, vs)
  {
    if vs == [] {
      assert Kept(u) + vs == Kept(u);
    } else {
      hide Holds, Assembled, Kept, Fed1;
      FedIsAssembled(u, vs[..|vs| - 1]);
      FedOneMore(u, Fed(u, vs[..|vs| - 1]).0, vs[..|vs| - 1], vs[|vs| - 1]);
      assert vs[..|vs| - 1] + [vs[|vs| - 1]] == vs;
    }
  }

  lemma FedOneMore<V>(u: Unit<V>, u2: Unit<V>, vs: seq<V>, n: V)
    requires Valid(u) && Valid(u2) && Holds(u, u2, Kept(u) + vs)
    ensures Valid(Fed1(u2, n).0) && Holds(u, Fed1(u2, n).0, Kept(u) + (vs + [n]))
    ensures Assembled(u, vs + [n]) == Assembled(u, vs) + Fed1(u2, n).1
  {
    hide Holds, Kept, Fed1;
    var ws := Kept(u) + vs;
    assert Kept(u) + (vs + [n]) == ws + [n];
    OneMoreVertex(u, u2, ws, n);
    if u.fan {
      OneMoreFan(ws, n);
    } else {
      OneMoreStrip(u.parity, ws, n);
    }
  }

  lemma OneMoreVertex<V>(u: Unit<V>, u2: Unit<V>, ws: seq<V>, n: V)
    requires Valid(u) && Valid(u2) && Holds(u, u2, ws)
    ensures Valid(Fed1(u2, n).0) && Holds(u, Fed1(u2, n).0, ws + [n])
    ensures Fed1(u2, n).1 == if |ws| < 2 then []
                             else if u.fan then [Triangle(ws[0], ws[|ws| - 1], n)]
                             else if (|ws| - 2 + u.parity) % 2 == 0 then [Triangle(ws[|ws| - 2], ws[|ws| - 1], n)]
                             else [Triangle(ws[|ws| - 1], ws[|ws| - 2], n)]
  {
  }

  lemma OneMoreStrip<V>(parity: nat, ws: seq<V>, n: V)
    ensures StripTriangles(parity, ws + [n]) == StripTriangles(parity, ws) +
                                                if |ws| < 2 then [] else [StripTriangle(parity, ws + [n], |ws| - 2)]
  {
  }

  lemma OneMoreFan<V>(ws: seq<V>, n: V)
    ensures FanTriangles(ws + [n]) == FanTriangles(ws) + if |ws| < 2 then [] else [Triangle(ws[0], ws[|ws| - 1], n)]
  {
  }

  // ---- Continuation ----

  /** Vertices fed in two parts are fed as one. */
  lemma {:induction false} FedInParts<V>(u: Unit<V>, a: seq<V>, b: seq<V>)
    ensures var first := Fed(u, a); var second := Fed(first.0, b);
            Fed(u, a + b) == (second.0, first.1 + second.1)
  {
    if b == [] {
      assert a + b == a;
      assert Fed(u, a).1 + [] == Fed(u, a).1;
    } else {
      var front, n := b[..|b| - 1], b[|b| - 1];
      FedInParts(u, a, front);
      assert (a + b)[..|a + b| - 1] == a + front;
      var first := Fed(u, a);
      var second := Fed(first.0, front);
      assert first.1 + second.1 + Fed1(second.0, n).1 == first.1 + (second.1 + Fed1(second.0, n).1);
    }
  }

  /** A triangle drawn by itself leaves the unit as a strip of its three vertices does, and is that strip. */
  lemma TriangleIsStrip<V>(u: Unit<V>, a: V, b: V, c: V)
    ensures Fed(Reset(u, false), [a, b, c]) == (AfterTriangle(u, b, c), [Triangle(a, b, c)])
  {
    FedIsAssembled(Reset(u, false), [a, b, c]);
    assert Kept(Reset(u, false)) + [a, b, c] == [a, b, c];
    assert StripTriangles(0, [a, b, c]) == [StripTriangle(0, [a, b, c], 0)];
    assert Fed(Reset(u, false), [a, b, c]).0 == AfterTriangle(u, b, c);
  }

  // ---- Draw calls ----

  /** The vertices before the first null pointer. */
  function Leading<V>(source: seq<Option<V>>): (r: seq<V>)
    ensures |r| <= |source|
  {
    if source == [] || source[0].None? then [] else [source[0].value] + Leading(source[1..])
  }

  lemma {:induction false} LeadingMeans<V>(source: seq<Option<V>>)
    ensures forall i :: 0 <= i < |Leading(source)| ==> source[i] == Some(Leading(source)[i])
    ensures |Leading(source)| < |source| ==> source[|Leading(source)|] == None
  {
    if source != [] && source[0].Some? {
      LeadingMeans(source[1..]);
    }
  }

  /** How many pointers a mode reads. */
  function Needed(mode: Mode, count: nat): (n: nat)
    ensures n <= count
  {
    match mode
    case LineStrip => if count >= 2 then count else 0
    case Lines => count - count % 2
    case Triangles => count - count % 3
    case Unknown => 0
    case _ => count
  }

  function PointsOf<V>(vs: seq<V>): seq<Primitive<V>> {
    seq(|vs|, k requires 0 <= k < |vs| => Point(vs[k]))
  }

  function Place(step: nat, k: nat): nat {
    if step == 1 then k else 2 * k
  }

  function LinesOf<V>(vs: seq<V>, step: nat): seq<Primitive<V>>
    requires step == 1 || step == 2
  {
    var n := if step == 1 then Positive(|vs| - 1) else |vs| / 2;
    seq(n, k requires 0 <= k < n => Line(vs[Place(step, k)], vs[Place(step, k) + 1]))
  }

  function TrianglesOf<V>(vs: seq<V>): seq<Primitive<V>> {
    seq(|vs| / 3, k requires 0 <= k < |vs| / 3 => Triangle(vs[3 * k], vs[3 * k + 1], vs[3 * k + 2]))
  }

  /** The unit at the start of a strip, fan or continuation. */
  function Started<V>(mode: Mode, u: Unit<V>): Unit<V> {
    match mode
    case Strip => Reset(u, false)
    case Fan => Reset(u, true)
    case Polygon => Reset(u, true)
    case StripContinue => u.(fan := false)
    case FanContinue => u.(fan := true)
    case _ => u
  }

  /** What a draw call emits: primitives before a null pointer are kept. */
  function Emits<V>(mode: Mode, u: Unit<V>, source: seq<Option<V>>): seq<Primitive<V>> {
    var vs := Leading(source[..Needed(mode, |source|)]);
    match mode
    case Points => PointsOf(vs)
    case LineStrip => LinesOf(vs, 1)
    case Lines => LinesOf(vs, 2)
    case Triangles => TrianglesOf(vs)
    case Unknown => []
    case _ => Fed(Started(mode, u), vs).1
  }

  function Succeeds<V>(mode: Mode, source: seq<Option<V>>): bool {
    mode != Unknown && |Leading(source[..Needed(mode, |source|)])| == Needed(mode, |source|)
  }

  /** How a draw call leaves the unit. */
  function Leaves<V>(mode: Mode, u: Unit<V>, source: seq<Option<V>>): Unit<V> {
    var vs := Leading(source[..Needed(mode, |source|)]);
    match mode
    case Points => if Succeeds(mode, source) then u.(count := 0) else u
    case LineStrip => if Succeeds(mode, source) then u.(count := 0) else u
    case Lines => if Succeeds(mode, source) then u.(count := 0) else u
    case Triangles => var n := |vs| / 3 * 3; if n == 0 then u else AfterTriangle(u, vs[n - 2], vs[n - 1])
    case Unknown => u
    case _ => Fed(Started(mode, u), vs).0
  }

  /** Pointers that are all there are among the leading ones. */
  lemma NextFetched<V>(source: seq<Option<V>>, n: nat, i: nat, from: nat, to: nat)
    requires n <= |source| && i <= to <= n && from <= |Leading(source[..n])|
    requires forall j :: (from <= j < to || i <= j < to) ==> source[j].Some?
    ensures to <= |Leading(source[..n])| && forall j :: i <= j < to ==> source[j].value == Leading(source[..n])[j]
  {
    LeadingMeans(source[..n]);
    var vs := Leading(source[..n]);
    assert |vs| < n ==> source[..n][|vs|] == source[|vs|];
    assert forall j :: 0 <= j < |vs| ==> source[..n][j] == source[j];
  }

  ghost predicate LinesTo<V>(vs: seq<V>, step: nat, out: seq<Primitive<V>>)
    requires step == 1 || step == 2
  {
    out <= LinesOf(vs, step)
  }

  lemma LinesNone<V>(vs: seq<V>, step: nat)
    requires step == 1 || step == 2
    ensures LinesTo(vs, step, [])
  {
  }

  lemma LinesStep<V>(vs: seq<V>, step: nat, out: seq<Primitive<V>>)
    requires step == 1 || step == 2
    requires LinesTo(vs, step, out) && Place(step, |out|) + 1 < |vs|
    ensures LinesTo(vs, step, out + [Line(vs[Place(step, |out|)], vs[Place(step, |out|) + 1])])
    ensures Place(step, |out| + 1) == Place(step, |out|) + step
  {
  }

  lemma LinesStop<V>(vs: seq<V>, step: nat, out: seq<Primitive<V>>)
    requires step == 1 || step == 2
    requires LinesTo(vs, step, out) && |vs| <= Place(step, |out|) + 1
    ensures out == LinesOf(vs, step)
  {
  }

  ghost predicate TrianglesTo<V>(vs: seq<V>, out: seq<Primitive<V>>) {
    out <= TrianglesOf(vs)
  }

  lemma TrianglesNone<V>(vs: seq<V>)
    ensures TrianglesTo(vs, [])
  {
  }

  lemma TrianglesStep<V>(vs: seq<V>, out: seq<Primitive<V>>)
    requires TrianglesTo(vs, out) && 3 * |out| + 3 <= |vs|
    ensures TrianglesTo(vs, out + [Triangle(vs[3 * |out|], vs[3 * |out| + 1], vs[3 * |out| + 2])])
  {
  }

  lemma TrianglesStop<V>(vs: seq<V>, out: seq<Primitive<V>>)
    requires TrianglesTo(vs, out) && |vs| < 3 * |out| + 3
    ensures out == TrianglesOf(vs)
  {
  }

  predicate Through(mode: Mode) {
    mode == Strip || mode == Fan || mode == Polygon || mode == StripContinue || mode == FanContinue
  }

  class Setup<V> {
    var v0: V
    var v1: V
    var count: nat
    var parity: nat
    var fan: bool

    constructor (blank: V)
      ensures Regs() == Unit(blank, blank, 0, 0, false)
    {
      v0, v1, count, parity, fan := blank, blank, 0, 0, false;
    }

    function Regs(): Unit<V>
      reads this
    {
      Unit(v0, v1, count, parity, fan)
    }

    /** setup_vertex; the triangle goes to the sink. */
    method Vertex(n: V, sink: seq<Primitive<V>>) returns (out: seq<Primitive<V>>)
      requires Valid(Regs())
      modifies this
      ensures Valid(Regs()) && Regs() == Fed1(old(Regs()), n).0 && out == sink + Fed1(old(Regs()), n).1
    {
      out := sink;
      if count < 2 {
        if count == 0 {
          v0 := n;
        } else {
          v1 := n;
        }
        count := count + 1;
        return;
      }
      if fan {
        out := out + [Triangle(v0, v1, n)];
        v1 := n;
        return;
      }
      if parity != 0 {
        out := out + [Triangle(v1, v0, n)];
      } else {
        out := out + [Triangle(v0, v1, n)];
      }
      v0 := v1;
      v1 := n;
      parity := 1 - parity;
    }

    method AfterOne(b: V, c: V)
      modifies this
      ensures Regs() == AfterTriangle(old(Regs()), b, c)
    {
      v0, v1, count, parity, fan := b, c, 2, 1, false;
    }

    method DrawPoints(source: seq<Option<V>>) returns (out: seq<Primitive<V>>, ok: bool)
      requires Valid(Regs())
      modifies this
      ensures out == Emits(Mode.Points, old(Regs()), source) && ok == Succeeds(Mode.Points, source)
      ensures Valid(Regs()) && Regs() == Leaves(Mode.Points, old(Regs()), source)
    {
      out := [];
      ghost var vs := Leading(source[..|source|]);
      LeadingMeans(source[..|source|]);
      var i := 0;
      while i < |source|
        invariant i <= |vs| && i <= |source| && out == PointsOf(vs[..i]) && Regs() == old(Regs())
      {
        if source[i].None? {
          assert vs[..i] == vs;
          return out, false;
        }
        out := out + [Point(source[i].value)];
        i := i + 1;
      }
      assert vs[..i] == vs;
      count := 0;
      return out, true;
    }

    method DrawLines(mode: Mode, source: seq<Option<V>>) returns (out: seq<Primitive<V>>, ok: bool)
      requires Valid(Regs()) && (mode == LineStrip || mode == Lines)
      modifies this
      ensures out == Emits(mode, old(Regs()), source) && ok == Succeeds(mode, source)
      ensures Valid(Regs()) && Regs() == Leaves(mode, old(Regs()), source)
    {
      hide LinesOf, Leading;
      out := [];
      var step := if mode == Lines then 2 else 1;
      ghost var n := Needed(mode, |source|);
      ghost var vs := Leading(source[..n]);
      LeadingMeans(source[..n]);
      LinesNone(vs, step);
      var i := 0;
      while |source| >= 2 && i <= |source| - 2
        invariant i == Place(step, |out|) && i <= |source| && i <= n && Regs() == old(Regs())
        invariant i > 0 ==> i + 2 - step <= |vs|
        invariant LinesTo(vs, step, out)
      {
        if source[i].None? || source[i + 1].None? {
          assert source[..n][i] == source[i] && source[..n][i + 1] == source[i + 1];
          LinesStop(vs, step, out);
          return out, false;
        }
        NextFetched(source, n, i, if i > 0 then i + 2 - step else 0, i + 2);
        LinesStep(vs, step, out);
        out := out + [Line(source[i].value, source[i + 1].value)];
        i := i + step;
      }
      LinesStop(vs, step, out);
      count := 0;
      return out, true;
    }

    method DrawTriangles(source: seq<Option<V>>) returns (out: seq<Primitive<V>>, ok: bool)
      requires Valid(Regs())
      modifies this
      ensures out == Emits(Mode.Triangles, old(Regs()), source) && ok == Succeeds(Mode.Triangles, source)
      ensures Valid(Regs()) && Regs() == Leaves(Mode.Triangles, old(Regs()), source)
    {
      hide TrianglesOf, Leading;
      out := [];
      ghost var n := Needed(Mode.Triangles, |source|);
      ghost var vs := Leading(source[..n]);
      LeadingMeans(source[..n]);
      TrianglesNone(vs);
      var i := 0;
      while |source| >= 3 && i <= |source| - 3
        invariant i == 3 * |out| && i <= |vs| && i <= n && Valid(Regs())
        invariant TrianglesTo(vs, out)
        invariant Regs() == if i == 0 then old(Regs()) else AfterTriangle(old(Regs()), vs[i - 2], vs[i - 1])
      {
        assert i + 3 <= n;
        if source[i].None? || source[i + 1].None? || source[i + 2].None? {
          assert source[..n][i] == source[i] && source[..n][i + 1] == source[i + 1] && source[..n][i + 2] == source[i + 2];
          TrianglesStop(vs, out);
          return out, false;
        }
        NextFetched(source, n, i, i, i + 3);
        TrianglesStep(vs, out);
        out := out + [Triangle(source[i].value, source[i + 1].value, source[i + 2].value)];
        AfterOne(source[i + 1].value, source[i + 2].value);
        i := i + 3;
      }
      TrianglesStop(vs, out);
      return out, true;
    }

    /** Strips, fans and continuations: every vertex goes through the unit. */
    method DrawThrough(mode: Mode, source: seq<Option<V>>) returns (out: seq<Primitive<V>>, ok: bool)
      requires Valid(Regs()) && Through(mode)
      modifies this
      ensures out == Emits(mode, old(Regs()), source) && ok == Succeeds(mode, source)
      ensures Valid(Regs()) && Regs() == Leaves(mode, old(Regs()), source)
    {
      out := [];
      if mode == StripContinue || mode == FanContinue {
        fan := mode == FanContinue;
      } else {
        count, parity, fan := 0, 0, mode != Strip;
      }
      ghost var start := Started(mode, old(Regs()));
      ghost var vs := Leading(source[..|source|]);
      LeadingMeans(source[..|source|]);
      var i := 0;
      while i < |source|
        invariant i <= |vs| && i <= |source| && Valid(Regs()) && (Regs(), out) == Fed(start, vs[..i])
      {
        if source[i].None? {
          assert vs[..i] == vs;
          return out, false;
        }
        assert vs[..i + 1][..i] == vs[..i] && vs[..i + 1][i] == source[i].value;
        out := Vertex(source[i].value, out);
        i := i + 1;
      }
      assert vs[..i] == vs;
      return out, true;
    }

    /** draw. */
    method Draw(mode: Mode, source: seq<Option<V>>) returns (out: seq<Primitive<V>>, ok: bool)
      requires Valid(Regs())
      modifies this
      ensures out == Emits(mode, old(Regs()), source) && ok == Succeeds(mode, source)
      ensures Valid(Regs()) && Regs() == Leaves(mode, old(Regs()), source)
    {
      match mode
      case Points => out, ok := DrawPoints(source);
      case LineStrip => out, ok := DrawLines(mode, source);
      case Lines => out, ok := DrawLines(mode, source);
      case Triangles => out, ok := DrawTriangles(source);
      case Unknown => out, ok := [], false;
      case _ => out, ok := DrawThrough(mode, source);
    }
  }

  // ---- Draw calls that continue one another ----

  /** The continuation of a mode that goes through the unit. */
  function Continuation(mode: Mode): Mode {
    if mode == Strip || mode == StripContinue then StripContinue else FanContinue
  }

  ghost predicate Complete<V>(source: seq<Option<V>>) {
    forall i :: 0 <= i < |source| ==> source[i].Some?
  }

  lemma LeadingOfSome<V>(x: V, rest: seq<Option<V>>)
    ensures Leading([Some(x)] + rest) == [x] + Leading(rest)
  {
    assert ([Some(x)] + rest)[1..] == rest;
  }

  lemma {:induction false} LeadingAppend<V>(a: seq<Option<V>>, b: seq<Option<V>>)
    requires Complete(a)
    ensures |Leading(a)| == |a| && Leading(a + b) == Leading(a) + Leading(b)
    decreases |a|
  {
    if a == [] {
      assert a + b == b && [] + Leading(b) == Leading(b);
    } else {
      hide Leading;
      var x, rest := a[0].value, a[1..];
      LeadingAppend(rest, b);
      assert a == [Some(x)] + rest && a + b == [Some(x)] + (rest + b);
      LeadingOfSome(x, rest);
      LeadingOfSome(x, rest + b);
    }
  }

  lemma {:induction false} FedKeepsFan<V>(u: Unit<V>, vs: seq<V>)
    ensures Fed(u, vs).0.fan == u.fan
  {
    if vs != [] {
      FedKeepsFan(u, vs[..|vs| - 1]);
    }
  }

  /** A draw and its continuation are one draw of the concatenated vertices: same triangles, same winding, same unit. */
  lemma ContinuationComposes<V>(mode: Mode, u: Unit<V>, a: seq<Option<V>>, b: seq<Option<V>>)
    requires Through(mode) && Complete(a)
    ensures var u1, next := Leaves(mode, u, a), Continuation(mode);
            && Emits(mode, u, a) + Emits(next, u1, b) == Emits(mode, u, a + b)
            && Leaves(next, u1, b) == Leaves(mode, u, a + b)
            && Succeeds(mode, a) && Succeeds(next, b) == Succeeds(mode, a + b)
  {
    hide Fed, Leading;
    assert a[..|a|] == a && b[..|b|] == b && (a + b)[..|a + b|] == a + b;
    LeadingAppend(a, b);
    FedKeepsFan(Started(mode, u), Leading(a));
    FedInParts(Started(mode, u), Leading(a), Leading(b));
  }

  /** What a draw through the unit emits, whatever the unit held: the assembly of the kept and the new vertices. */
  lemma DrawIsAssembly<V>(mode: Mode, u: Unit<V>, source: seq<Option<V>>)
    requires Through(mode) && Valid(u)
    ensures Emits(mode, u, source) == Assembled(Started(mode, u), Leading(source))
    ensures mode == Strip ==> Emits(mode, u, source) == StripTriangles(0, Leading(source))
    ensures mode == Fan || mode == Polygon ==> Emits(mode, u, source) == FanTriangles(Leading(source))
  {
    hide Fed, Leading, StripTriangles, FanTriangles;
    assert source[..|source|] == source;
    FedIsAssembled(Started(mode, u), Leading(source));
    assert [] + Leading(source) == Leading(source);
  }

  /** A separate triangle and a strip continuation are one strip that starts with the triangle. */
  lemma TriangleThenContinue<V>(u: Unit<V>, a: V, b: V, c: V, rest: seq<Option<V>>)
    ensures var first := [Some(a), Some(b), Some(c)]; var u1 := Leaves(Mode.Triangles, u, first);
            && Emits(Mode.Triangles, u, first) + Emits(StripContinue, u1, rest) == Emits(Strip, u, first + rest)
            && Leaves(StripContinue, u1, rest) == Leaves(Strip, u, first + rest)
  {
    hide Fed;
    var first := [Some(a), Some(b), Some(c)];
    assert Leading(first) == [a, b, c] by { LeadingThree(a, b, c); }
    assert first[..3] == first;
    TriangleIsStrip(u, a, b, c);
    ContinuationComposes(Strip, u, first, rest);
    assert TrianglesOf([a, b, c]) == [Triangle(a, b, c)];
  }

  lemma LeadingThree<V>(a: V, b: V, c: V)
    ensures Leading([Some(a), Some(b), Some(c)]) == [a, b, c]
  {
    LeadingOfSome(c, []);
    LeadingOfSome(b, [Some(c)]);
    LeadingOfSome(a, [Some(b), Some(c)]);
    assert [Some(c)] + [] == [Some(c)] && [Some(b)] + [Some(c)] == [Some(b), Some(c)];
    assert [Some(a)] + [Some(b), Some(c)] == [Some(a), Some(b), Some(c)];
  }

  /**
   * Points and lines empty the unit but leave its parity: a strip
   * continuation after them is a strip of its own exactly when the parity was
   * even or exchanging its triangles' first vertices changes nothing.
   */
  lemma ContinueAfterPointsIff<V>(mode: Mode, u: Unit<V>, points: seq<Option<V>>, rest: seq<Option<V>>)
    requires Valid(u) && Complete(points) && mode in {Mode.Points, LineStrip, Lines}
    ensures var vs := Leading(rest);
            Emits(StripContinue, Leaves(mode, u, points), rest) == Emits(Strip, u, rest)
            <==> u.parity == 0 || forall k :: 0 <= k < |vs| - 2 ==> vs[k] == vs[k + 1]
  {
    hide Fed, Leading;
    var n := Needed(mode, |points|);
    assert points == points[..n] + points[n..];
    LeadingAll(points[..n]);
    var u1, vs := Leaves(mode, u, points), Leading(rest);
    assert u1 == u.(count := 0);
    DrawIsAssembly(StripContinue, u1, rest);
    DrawIsAssembly(Strip, u, rest);
    assert [] + vs == vs;
    OddStripIff(vs);
    assert u.parity == 0 || u.parity == 1;
  }

  lemma LeadingAll<V>(source: seq<Option<V>>)
    requires Complete(source)
    ensures |Leading(source)| == |source|
  {
    hide Leading;
    LeadingMeans(source);
  }

  /**
   * Points, lines and separate triangles as a table: the k-th primitive is there
   * exactly when the draw has its last vertex and no pointer up to that is null.
   */
  lemma SeparateIs<V>(mode: Mode, u: Unit<V>, source: seq<Option<V>>, k: nat)
    requires mode in {Mode.Points, LineStrip, Lines, Triangles}
    ensures var first := if mode == Triangles then 3 * k else if mode == Lines then 2 * k else k;
            var last := if mode == Triangles then first + 2 else if mode == Mode.Points then first else first + 1;
            && (k < |Emits(mode, u, source)| <==> last < |source| && forall i :: 0 <= i <= last ==> source[i].Some?)
            && (k < |Emits(mode, u, source)| ==>
                  Emits(mode, u, source)[k] ==
                  if mode == Mode.Points then Point(source[k].value)
                  else if mode == Triangles then Triangle(source[first].value, source[first + 1].value, source[last].value)
                  else Line(source[first].value, source[last].value))
  {
    hide Leading;
    var n := Needed(mode, |source|);
    LeadingMeans(source[..n]);
    var m := |Leading(source[..n])|;
    assert forall i :: 0 <= i < m ==> source[..n][i] == source[i];
    assert m < n ==> source[..n][m] == source[m];
  }

  lemma OddStripIff<V>(vs: seq<V>)
    ensures StripTriangles(1, vs) == StripTriangles(0, vs) <==> forall k :: 0 <= k < |vs| - 2 ==> vs[k] == vs[k + 1]
  {
    var a, b := StripTriangles(1, vs), StripTriangles(0, vs);
    if forall k :: 0 <= k < |vs| - 2 ==> vs[k] == vs[k + 1] {
      forall k | 0 <= k < |a|
        ensures a[k] == b[k]
      {
        assert a[k] == StripTriangle(1, vs, k) && b[k] == StripTriangle(0, vs, k);
      }
    }
    if a == b {
      forall k | 0 <= k < |vs| - 2
        ensures vs[k] == vs[k + 1]
      {
        assert a[k] == StripTriangle(1, vs, k) && b[k] == StripTriangle(0, vs, k);
      }
    }
  }
}
