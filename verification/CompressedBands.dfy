/**
 * Compressed images travel as sub-images of whole 4x4 blocks
 * (guest/opengl/compressed.cpp, lines 33-88): the bands and chunks tile the
 * image and carry each block's own bytes.
 */
module CompressedBands {

  const SIDE: nat := 4

  function Blocks(pixels: nat): nat {
    (pixels + SIDE - 1) / SIDE
  }

  function CompressedImageBytes(width: nat, height: nat, block: nat): nat {
    Blocks(width) * Blocks(height) * block
  }

  /** A sub-image record: its rectangle, its size word and its payload. */
  datatype Band<B> = Band(x: nat, y: nat, width: nat, height: nat, imageSize: nat, payload: seq<B>)

  datatype Image<B> = Image(x: nat, y: nat, width: nat, height: nat, block: nat, data: seq<B>)

  ghost predicate ValidImage<B>(m: Image<B>) {
    m.width > 0 && m.height > 0 && m.block > 0 && |m.data| == CompressedImageBytes(m.width, m.height, m.block)
  }

  /** A record's blocks: `rows` x `count` from block (row, first) of the image. */
  datatype Region = Region(row: nat, rows: nat, first: nat, count: nat)

  ghost predicate Contains(g: Region, r: int, c: int) {
    g.row <= r < g.row + g.rows && g.first <= c < g.first + g.count
  }

  ghost predicate Inside<B>(m: Image<B>, g: Region) {
    g.rows > 0 && g.count > 0 && g.row + g.rows <= Blocks(m.height) && g.first + g.count <= Blocks(m.width)
  }

  function Least(a: int, b: int): int {
    if a < b then a else b
  }

  /** The record is the part of the image that its blocks cover, edges cut off. */
  ghost predicate Frames<B>(m: Image<B>, b: Band<B>, g: Region) {
    && Inside(m, g)
    && b.x == m.x + g.first * SIDE && b.y == m.y + g.row * SIDE
    && b.width == Least(g.count * SIDE, m.width - g.first * SIDE)
    && b.height == Least(g.rows * SIDE, m.height - g.row * SIDE)
  }

  function BlockAt<B>(data: seq<B>, index: int, block: nat): seq<B> {
    BytesAt(data, index * block, block)
  }

  function BytesAt<B>(data: seq<B>, from: int, n: nat): seq<B> {
    if 0 <= from && from + n <= |data| then data[from..from + n] else []
  }

  /** Every block of the record's own grid holds that block of the image. */
  ghost predicate CarriesBlocks<B>(m: Image<B>, b: Band<B>, g: Region) {
    && b.imageSize == |b.payload| == CompressedImageBytes(b.width, b.height, m.block)
    && forall r, c :: Contains(g, r, c) ==>
         BlockAt(b.payload, (r - g.row) * g.count + (c - g.first), m.block) == BlockAt(m.data, r * Blocks(m.width) + c, m.block)
         != []
  }

  ghost predicate Disjoint(gs: seq<Region>) {
    forall i, j, r, c :: 0 <= i < j < |gs| && Contains(gs[i], r, c) ==> !Contains(gs[j], r, c)
  }

  ghost predicate Covered(gs: seq<Region>, r: int, c: int) {
    exists i :: 0 <= i < |gs| && Contains(gs[i], r, c)
  }

  /** The regions cover exactly the rows above `row` and, of the next `rows`, the columns before `first`. */
  ghost predicate CoversTo(gs: seq<Region>, across: nat, row: nat, rows: nat, first: nat) {
    forall r, c :: 0 <= r && 0 <= c < across ==>
      (Covered(gs, r, c) <==> r < row || (r < row + rows && c < first))
  }

  /** Records are as few as can be: whole block rows, as many as fit, else as many blocks of one row as fit. */
  ghost predicate Largest<B>(m: Image<B>, g: Region, capacity: nat) {
    var across, down := Blocks(m.width), Blocks(m.height);
    if across * m.block <= capacity then
      g.first == 0 && g.count == across && (g.row + g.rows == down || across * (g.rows + 1) * m.block > capacity)
    else
      g.rows == 1 && (g.first + g.count == across || (g.count + 1) * m.block > capacity)
  }

  ghost predicate Emitted<B>(m: Image<B>, bands: seq<Band<B>>, gs: seq<Region>, capacity: nat) {
    && |bands| == |gs| && Disjoint(gs)
    && forall i :: 0 <= i < |gs| ==>
         Frames(m, bands[i], gs[i]) && CarriesBlocks(m, bands[i], gs[i]) && bands[i].imageSize <= capacity && Largest(m, gs[i], capacity)
  }

  /** The records tile the image: each block belongs to exactly one of them. */
  ghost predicate Tiles<B>(m: Image<B>, bands: seq<Band<B>>, gs: seq<Region>, capacity: nat) {
    && Emitted(m, bands, gs, capacity)
    && forall r, c :: 0 <= r < Blocks(m.height) && 0 <= c < Blocks(m.width) ==> Covered(gs, r, c)
  }

  ghost predicate Tiled<B>(m: Image<B>, bands: seq<Band<B>>, capacity: nat) {
    exists gs :: Tiles(m, bands, gs, capacity)
  }

  /** The blocks before some point of the order are covered, in records as Tiles has them, and no others. */
  ghost predicate TiledUpTo<B>(m: Image<B>, bands: seq<Band<B>>, capacity: nat) {
    exists gs, row, rows, first :: Progress(m, bands, gs, capacity, row, rows, first)
  }

  ghost predicate AllTaken(taken: nat -> bool, n: nat) {
    forall k: nat :: k < n ==> taken(k)
  }

  // ---- One record ----

  lemma MulLe(a: nat, b: nat, k: nat)
    requires a <= b
    ensures a * k <= b * k
  {
  }

  lemma Distribute(a: int, b: int, k: int)
    ensures (a + b) * k == a * k + b * k
  {
  }

  lemma Associate(a: int, b: int, c: int)
    ensures a * b * c == a * (b * c)
  {
  }

  lemma Products(row: nat, across: nat, first: nat, block: nat)
    ensures (row * across + first) * block == row * (across * block) + first * block
    ensures 0 <= row * across
  {
    Distribute(row * across, first, block);
    Associate(row, across, block);
    MulLe(0, row, across);
  }

  /** n blocks from block `from` on lie within `total` blocks. */
  lemma SliceFits(from: nat, n: nat, total: nat, block: nat)
    requires from + n <= total && n > 0 && block > 0
    ensures 0 <= from * block && 0 < n * block && from * block + n * block <= total * block
  {
    MulLe(from + n, total, block);
    MulLe(1, n, block);
    Distribute(from, n, block);
    MulLe(0, from, block);
  }

  /** Blocks in a row, or whole rows of blocks, are one slice of the data. */
  lemma SliceOffset<B>(m: Image<B>, g: Region)
    requires ValidImage(m) && Inside(m, g) && (g.rows == 1 || (g.first == 0 && g.count == Blocks(m.width)))
    ensures var from, size := (g.row * Blocks(m.width) + g.first) * m.block, g.count * g.rows * m.block;
            0 <= from && 0 < size && from + size <= |m.data|
  {
    hide Blocks;
    var across, down := Blocks(m.width), Blocks(m.height);
    MulLe(g.row + g.rows, down, across);
    MulLe(0, g.row, across);
    Distribute(g.row, g.rows, across);
    MulLe(1, g.rows, g.count);
    assert g.count * g.rows == g.rows * g.count && across * down == down * across;
    assert g.row * across + g.first + g.count * g.rows <= across * down by {
      WithinRows(g.row, g.rows, g.first, g.count, across, down);
    }
    SliceFits(g.row * across + g.first, g.count * g.rows, across * down, m.block);
  }

  lemma WithinRows(row: nat, rows: nat, first: nat, count: nat, across: nat, down: nat)
    requires first + count <= across && row + rows <= down && rows > 0 && (rows == 1 || (first == 0 && count == across))
    ensures row * across + first + count * rows <= across * down
  {
    MulLe(row + rows, down, across);
    Distribute(row, rows, across);
    MulLe(1, rows, across);
  }

  lemma BlockOfSlice<B>(data: seq<B>, from: nat, size: nat, i: nat, j: nat, block: nat)
    requires from + size <= |data| && block > 0 && i * block + block <= size && from + i * block == j * block
    ensures BlockAt(data[from..from + size], i, block) == BlockAt(data, j, block) != []
  {
    hide BytesAt;
    MulLe(0, i, block);
    BytesOfSlice(data, from, size, i * block, block);
  }

  lemma BytesOfSlice<B>(data: seq<B>, from: nat, size: nat, at: nat, n: nat)
    requires from + size <= |data| && n > 0 && at + n <= size
    ensures BytesAt(data[from..from + size], at, n) == BytesAt(data, from + at, n) != []
  {
    var s := data[from..from + size];
    var x, y := s[at..at + n], data[from + at..from + at + n];
    forall k | 0 <= k < n
      ensures x[k] == y[k]
    {
      assert x[k] == s[at + k] == data[from + (at + k)];
    }
    assert x == y;
  }

  /** Index of a block within its record. */
  lemma IndexInRegion(g: Region, r: int, c: int, block: nat)
    requires Contains(g, r, c)
    ensures var i := (r - g.row) * g.count + (c - g.first); 0 <= i && 0 <= i * block && i * block + block <= g.count * g.rows * block
  {
    var i := (r - g.row) * g.count + (c - g.first);
    MulLe(0, r - g.row, g.count);
    MulLe(r - g.row + 1, g.rows, g.count);
    Distribute(r - g.row, 1, g.count);
    MulLe(i + 1, g.count * g.rows, block);
    MulLe(0, i, block);
    Distribute(i, 1, block);
  }

  /** The slice starts where the region does. */
  lemma SamePlace(g: Region, across: nat, r: int, c: int, block: nat)
    requires Contains(g, r, c) && (g.rows == 1 || (g.first == 0 && g.count == across))
    ensures (g.row * across + g.first) * block + ((r - g.row) * g.count + (c - g.first)) * block == (r * across + c) * block
    ensures 0 <= r * across + c
  {
    MulLe(0, r, across);
    assert g.row * across + g.first + ((r - g.row) * g.count + (c - g.first)) == r * across + c by {
      if g.rows == 1 {
        assert (r - g.row) * g.count == 0;
      } else {
        Distribute(g.row, r - g.row, across);
      }
    }
    Distribute(g.row * across + g.first, (r - g.row) * g.count + (c - g.first), block);
  }

  lemma SliceBlock<B>(m: Image<B>, g: Region, r: int, c: int)
    requires ValidImage(m) && Inside(m, g) && (g.rows == 1 || (g.first == 0 && g.count == Blocks(m.width))) && Contains(g, r, c)
    requires var from, size := (g.row * Blocks(m.width) + g.first) * m.block, g.count * g.rows * m.block;
             0 <= from && 0 <= size && from + size <= |m.data|
    ensures var from, size := (g.row * Blocks(m.width) + g.first) * m.block, g.count * g.rows * m.block;
            BlockAt(m.data[from..from + size], (r - g.row) * g.count + (c - g.first), m.block)
            == BlockAt(m.data, r * Blocks(m.width) + c, m.block) != []
  {
    hide Blocks, BlockAt;
    var across := Blocks(m.width);
    IndexInRegion(g, r, c, m.block);
    SamePlace(g, across, r, c, m.block);
    BlockOfSlice(m.data, (g.row * across + g.first) * m.block, g.count * g.rows * m.block,
                 (r - g.row) * g.count + (c - g.first), r * across + c, m.block);
  }

  lemma SliceCarries<B>(m: Image<B>, b: Band<B>, g: Region)
    requires ValidImage(m) && Frames(m, b, g) && (g.rows == 1 || (g.first == 0 && g.count == Blocks(m.width)))
    requires var from, size := (g.row * Blocks(m.width) + g.first) * m.block, g.count * g.rows * m.block;
             0 <= from && 0 <= size && from + size <= |m.data| && b.payload == m.data[from..from + size] && b.imageSize == size
    ensures CarriesBlocks(m, b, g)
  {
    hide Blocks, BlockAt;
    FrameBlocks(m, b, g);
    forall r, c | Contains(g, r, c)
      ensures BlockAt(b.payload, (r - g.row) * g.count + (c - g.first), m.block)
              == BlockAt(m.data, r * Blocks(m.width) + c, m.block) != []
    {
      SliceBlock(m, g, r, c);
    }
  }

  /** The record's own size in blocks is its region's, even at a partial edge. */
  lemma FrameBlocks<B>(m: Image<B>, b: Band<B>, g: Region)
    requires Frames(m, b, g)
    ensures Blocks(b.width) == g.count && Blocks(b.height) == g.rows
    ensures CompressedImageBytes(b.width, b.height, m.block) == g.count * g.rows * m.block
  {
  }

  // ---- Tiling ----

  lemma MoreCovered(gs: seq<Region>, g: Region, r: int, c: int)
    ensures Covered(gs + [g], r, c) <==> Covered(gs, r, c) || Contains(g, r, c)
  {
    var all := gs + [g];
    assert all[|gs|] == g;
    if Covered(gs, r, c) {
      var i :| 0 <= i < |gs| && Contains(gs[i], r, c);
      assert Contains(all[i], r, c);
    }
    if Covered(all, r, c) {
      var i :| 0 <= i < |all| && Contains(all[i], r, c);
      assert i < |gs| ==> Contains(gs[i], r, c);
    }
  }

  lemma MoreDisjoint(gs: seq<Region>, g: Region)
    requires Disjoint(gs) && forall r, c :: Contains(g, r, c) ==> !Covered(gs, r, c)
    ensures Disjoint(gs + [g])
  {
    var all := gs + [g];
    forall i, j, r, c | 0 <= i < j < |all| && Contains(all[i], r, c)
      ensures !Contains(all[j], r, c)
    {
      assert Contains(gs[i], r, c);
      assert Covered(gs, r, c);
      assert j < |gs| ==> all[j] == gs[j];
    }
  }

  lemma OneMoreRegion(gs: seq<Region>, g: Region, across: nat, first: nat)
    requires CoversTo(gs, across, g.row, g.rows, first) && g.first == first && first + g.count <= across
    requires Disjoint(gs)
    ensures CoversTo(gs + [g], across, g.row, g.rows, first + g.count) && Disjoint(gs + [g])
  {
    hide Covered;
    forall r, c | 0 <= r && 0 <= c < across
      ensures Covered(gs + [g], r, c) <==> r < g.row || (r < g.row + g.rows && c < first + g.count)
    {
      MoreCovered(gs, g, r, c);
    }
    MoreDisjoint(gs, g);
  }

  lemma NextRow(gs: seq<Region>, across: nat, row: nat, rows: nat, next: nat)
    requires CoversTo(gs, across, row, rows, across)
    ensures CoversTo(gs, across, row + rows, next, 0)
  {
  }

  /** The regions of whole rows above `row`, and of the first columns of the current band. */
  ghost predicate Progress<B>(m: Image<B>, bands: seq<Band<B>>, gs: seq<Region>, capacity: nat, row: nat, rows: nat, first: nat) {
    Emitted(m, bands, gs, capacity) && CoversTo(gs, Blocks(m.width), row, rows, first)
  }

  lemma EmitOne<B>(m: Image<B>, bands: seq<Band<B>>, gs: seq<Region>, capacity: nat, b: Band<B>, g: Region)
    requires Progress(m, bands, gs, capacity, g.row, g.rows, g.first)
    requires Frames(m, b, g) && CarriesBlocks(m, b, g) && b.imageSize <= capacity && Largest(m, g, capacity)
    ensures Progress(m, bands + [b], gs + [g], capacity, g.row, g.rows, g.first + g.count)
  {
    hide Frames, CarriesBlocks, CoversTo, Disjoint, Blocks, Largest;
    InsideWidth(m, b, g);
    OneMoreRegion(gs, g, Blocks(m.width), g.first);
  }

  lemma InsideWidth<B>(m: Image<B>, b: Band<B>, g: Region)
    requires Frames(m, b, g)
    ensures g.first + g.count <= Blocks(m.width)
  {
  }

  lemma BandFinished<B>(m: Image<B>, bands: seq<Band<B>>, gs: seq<Region>, capacity: nat, row: nat, rows: nat, next: nat)
    requires Progress(m, bands, gs, capacity, row, rows, Blocks(m.width))
    ensures Progress(m, bands, gs, capacity, row + rows, next, 0)
    ensures row + rows == Blocks(m.height) ==> Tiles(m, bands, gs, capacity)
  {
    hide Emitted;
    NextRow(gs, Blocks(m.width), row, rows, next);
  }

  /** Rows and chunk sizes: what fits. */
  lemma RowsFit(across: nat, block: nat, capacity: nat, rows: nat)
    requires 0 < across * block <= capacity && rows <= capacity / (across * block)
    ensures across * rows * block <= capacity
    ensures rows == capacity / (across * block) ==> across * (rows + 1) * block > capacity
  {
    var stride := across * block;
    MulLe(rows, capacity / stride, stride);
    assert across * rows * block == rows * stride;
    assert (capacity / stride) * stride <= capacity;
    assert across * (rows + 1) * block == rows * stride + stride;
    assert capacity == (capacity / stride) * stride + capacity % stride;
  }

  lemma ChunkFits(count: nat, block: nat, capacity: nat)
    requires 0 < block <= capacity
    ensures capacity / block > 0 && (capacity / block) * block <= capacity
    ensures count * block > capacity ==> capacity / block < count
    ensures (capacity / block + 1) * block > capacity
  {
    var q := capacity / block;
    if count <= q {
      MulLe(count, q, block);
    }
    assert q <= 0 ==> q * block <= 0;
    assert capacity == q * block + capacity % block;
  }

  /** As many rows as fit, or all that are left. */
  ghost predicate MostRows<B>(m: Image<B>, capacity: nat, row: nat, rows: nat) {
    Blocks(m.width) * m.block <= capacity ==> row + rows == Blocks(m.height) || Blocks(m.width) * (rows + 1) * m.block > capacity
  }

  /** One record of a band. `rows` > 1 only when a whole row fits. */
  method BandRecord<B>(m: Image<B>, capacity: nat, row: nat, rows: nat, first: nat) returns (b: Band<B>, ghost g: Region, count: nat)
    requires ValidImage(m) && m.block <= capacity && first < Blocks(m.width)
    requires 0 < rows && row + rows <= Blocks(m.height)
    requires if Blocks(m.width) * m.block <= capacity then first == 0 && Blocks(m.width) * rows * m.block <= capacity else rows == 1
    requires MostRows(m, capacity, row, rows)
    ensures Largest(m, g, capacity)
    ensures g == Region(row, rows, first, count) && count > 0
    ensures Blocks(m.width) * m.block <= capacity ==> first + count == Blocks(m.width)
    ensures Frames(m, b, g) && CarriesBlocks(m, b, g) && b.imageSize <= capacity
  {
    hide Blocks, Contains, BlockAt, CarriesBlocks;
    var across := Blocks(m.width);
    count := across - first;
    ChunkFits(count, m.block, capacity);
    MulLe(count, across, m.block);
    if count * m.block > capacity {
      count := capacity / m.block;
    }
    g := Region(row, rows, first, count);
    SliceOffset(m, g);
    var size := count * rows * m.block;
    var stride := across * m.block;
    Products(row, across, first, m.block);
    EdgeOfRegion(m, g);
    b := Band(m.x + first * SIDE, m.y + row * SIDE, Least(count * SIDE, m.width - first * SIDE),
              Least(rows * SIDE, m.height - row * SIDE), size, m.data[row * stride + first * m.block..][..size]);
    SliceCarries(m, b, g);
  }

  lemma EdgeOfRegion<B>(m: Image<B>, g: Region)
    requires Inside(m, g)
    ensures m.width - g.first * SIDE > 0 && m.height - g.row * SIDE > 0
  {
  }

  /** One band of `rows` block rows: whole, or in chunks of blocks when one row is too long for a record. */
  method BandOfRows<B>(m: Image<B>, capacity: nat, row: nat, rows: nat, taken: nat -> bool, bands0: seq<Band<B>>, ghost gs0: seq<Region>)
    returns (bands: seq<Band<B>>, ghost gs: seq<Region>, complete: bool)
    requires ValidImage(m) && m.block <= capacity && 0 < rows && row + rows <= Blocks(m.height)
    requires if Blocks(m.width) * m.block <= capacity then Blocks(m.width) * rows * m.block <= capacity else rows == 1
    requires MostRows(m, capacity, row, rows)
    requires Progress(m, bands0, gs0, capacity, row, rows, 0) && AllTaken(taken, |bands0|)
    ensures AllTaken(taken, |bands|)
    ensures complete ==> Progress(m, bands, gs, capacity, row, rows, Blocks(m.width))
    ensures !complete ==> !taken(|bands|) && TiledUpTo(m, bands, capacity)
  {
    hide Blocks, Progress, Frames, CarriesBlocks, ValidImage, Largest, MostRows;
    var across := Blocks(m.width);
    assert across > 0 by { ImageNotEmpty(m); }
    bands, gs := bands0, gs0;
    var first := 0;
    while true
      invariant first < across && Progress(m, bands, gs, capacity, row, rows, first) && AllTaken(taken, |bands|)
      invariant across * m.block <= capacity ==> first == 0
      decreases across - first
    {
      ghost var g;
      var b, count;
      b, g, count := BandRecord(m, capacity, row, rows, first);
      if !taken(|bands|) {
        return bands, gs, false;
      }
      EmitOne(m, bands, gs, capacity, b, g);
      InsideWidth(m, b, g);
      bands, gs := bands + [b], gs + [g];
      first := first + count;
      if first >= across {
        break;
      }
    }
    complete := true;
  }

  lemma ImageNotEmpty<B>(m: Image<B>)
    requires ValidImage(m)
    ensures Blocks(m.width) > 0 && Blocks(m.height) > 0 && m.block > 0
  {
  }

  /**
   * CompressedBands: whole block rows, as many as fit in one record. `taken`
   * says which records find room: the first refused one ends the transfer.
   */
  method Bands<B>(m: Image<B>, capacity: nat, taken: nat -> bool) returns (bands: seq<Band<B>>, complete: bool)
    requires ValidImage(m) && m.block <= capacity
    ensures AllTaken(taken, |bands|)
    ensures if complete then Tiled(m, bands, capacity) else !taken(|bands|) && TiledUpTo(m, bands, capacity)
  {
    hide Blocks, Progress, Tiles, ValidImage, TiledUpTo;
    ImageNotEmpty(m);
    var across, down := Blocks(m.width), Blocks(m.height);
    var stride := across * m.block;
    MulLe(1, across, m.block);
    bands := [];
    ghost var gs: seq<Region> := [];
    var row := 0;
    NothingEmitted(m, capacity);
    while row < down
      invariant row <= down && Progress(m, bands, gs, capacity, row, 0, 0) && AllTaken(taken, |bands|)
      invariant row == down ==> Tiles(m, bands, gs, capacity)
    {
      var rows := 1;
      if stride <= capacity {
        rows := capacity / stride;
        ChunkFits(1, stride, capacity);
        if rows > down - row {
          rows := down - row;
        }
        RowsFit(across, m.block, capacity, rows);
      }
      BandStarts(m, bands, gs, capacity, row, rows);
      bands, gs, complete := BandOfRows(m, capacity, row, rows, taken, bands, gs);
      if !complete {
        return;
      }
      BandFinished(m, bands, gs, capacity, row, rows, 0);
      row := row + rows;
    }
    complete := true;
  }

  lemma NothingEmitted<B>(m: Image<B>, capacity: nat)
    ensures Progress(m, [], [], capacity, 0, 0, 0)
  {
  }

  lemma BandStarts<B>(m: Image<B>, bands: seq<Band<B>>, gs: seq<Region>, capacity: nat, row: nat, rows: nat)
    requires Progress(m, bands, gs, capacity, row, 0, 0)
    ensures Progress(m, bands, gs, capacity, row, rows, 0)
  {
  }
}
