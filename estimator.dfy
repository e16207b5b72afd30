// The motion estimator.  For every 16x16 block of the current frame it runs
// the exhaustive search over the reference planes; when the best whole-block
// error is above the split threshold it also searches each 8x8 quadrant, and
// it keeps the four quadrant vectors only when together they cost at most 0.7
// of the whole-block error.  The vector of block (i, j) is stored in slot
// i * numBlocksHor + j of the output array.
//
// The reference planes come from a hash map, so the order in which they are
// tried is not fixed by the program: it is a parameter `order` here, any
// enumeration of the map's keys.
module Estimator {
  import opened Grid
  import opened Metric
  import opened Vectors
  import opened Search

  /** Side of the block one vector covers (`BLOCK_SIZE`). */
  const BLOCK_SIZE: int := 16
  /** A block whose best whole-block error exceeds this is split. */
  const SPLIT_THRESHOLD: int := 1000

  /** C++ `/` on `int`: the quotient truncated toward zero. */
  function CDiv(a: int, b: int): int
    requires 0 < b
  {
    if a >= 0 then a / b else -((-a) / b)
  }

  /** `(n + BLOCK_SIZE - 1) / BLOCK_SIZE`. */
  function NumBlocks(n: int): int
  {
    CDiv(n + BLOCK_SIZE - 1, BLOCK_SIZE)
  }

  /** For n >= 0 pixels the block count is the ceiling of n / 16: the blocks
      cover the frame and the last one starts inside it; for a multiple of 16
      they tile it exactly. */
  lemma NumBlocksIsCeiling(n: int)
    requires 0 <= n
    ensures 0 <= NumBlocks(n)
    ensures n <= NumBlocks(n) * BLOCK_SIZE < n + BLOCK_SIZE
    ensures n % BLOCK_SIZE == 0 ==> NumBlocks(n) * BLOCK_SIZE == n
  {
  }

  /** The reference planes: the previous frame, and the three half-pixel
      shifted planes only in half-pixel mode. */
  function RefDirs(useHalfPixel: bool): set<ShiftDir>
  {
    if useHalfPixel then {NoShift, Up, Left, UpLeft} else {NoShift}
  }

  /** The map from shift to plane that `Estimate` builds. */
  function PrevMap(prev: seq<Byte>, up: seq<Byte>, left: seq<Byte>, upLeft: seq<Byte>, useHalfPixel: bool)
    : map<ShiftDir, seq<Byte>>
  {
    if useHalfPixel then map[NoShift := prev, Up := up, Left := left, UpLeft := upLeft]
    else map[NoShift := prev]
  }

  /** The map holds exactly the reference shifts, the previous frame under
      NONE, and each shifted plane under its own shift. */
  lemma PrevMapShape(prev: seq<Byte>, up: seq<Byte>, left: seq<Byte>, upLeft: seq<Byte>, useHalfPixel: bool)
    ensures PrevMap(prev, up, left, upLeft, useHalfPixel).Keys == RefDirs(useHalfPixel)
    ensures PrevMap(prev, up, left, upLeft, useHalfPixel)[NoShift] == prev
    ensures useHalfPixel ==> PrevMap(prev, up, left, upLeft, useHalfPixel)[Up] == up &&
                             PrevMap(prev, up, left, upLeft, useHalfPixel)[Left] == left &&
                             PrevMap(prev, up, left, upLeft, useHalfPixel)[UpLeft] == upLeft
  {
  }

  /** Without half-pixel mode the shifted planes are never looked at. */
  lemma HalfPelPlanesUnused(prev: seq<Byte>, up1: seq<Byte>, left1: seq<Byte>, upLeft1: seq<Byte>,
                            up2: seq<Byte>, left2: seq<Byte>, upLeft2: seq<Byte>)
    ensures PrevMap(prev, up1, left1, upLeft1, false) == PrevMap(prev, up2, left2, upLeft2, false)
  {
  }

  /** `order` lists each key exactly once: an iteration order of the map. */
  predicate Enumerates(order: seq<ShiftDir>, keys: set<ShiftDir>)
  {
    (forall d :: d in keys <==> d in order) &&
    (forall a, b :: 0 <= a < b < |order| ==> order[a] != order[b])
  }

  /** The output array: every slot holds a valid vector, and no two slots
      share anything they own. */
  ghost predicate Slots(a: array<MV>)
    reads a, set k | 0 <= k < a.Length :: a[k]
    reads set k, o | 0 <= k < a.Length && o in a[k].Repr :: o
  {
    (forall k :: 0 <= k < a.Length ==> a[k].Valid()) &&
    (forall k, l :: 0 <= k < a.Length && 0 <= l < a.Length && k != l ==> a[k].Repr !! a[l].Repr)
  }

  /** The total error of four sub-vectors. */
  function SubErrors(quads: seq<Motion>): int
    requires |quads| == 4
  {
    quads[0].error + quads[1].error + quads[2].error + quads[3].error
  }

  /** The merge check: the four sub-vectors are kept only when they cost at
      most 0.7 of the whole-block error (`sum > error * 0.7` is
      10 * sum > 7 * error over the integers). */
  function Merge(whole: Motion, quads: seq<Motion>): Motion
    requires |quads| == 4
  {
    if 10 * SubErrors(quads) > 7 * whole.error then whole else whole.(subs := Some(quads))
  }

  /** The best vectors of four searches, in order. */
  function QuadScans(qs: seq<Search>): (r: seq<Motion>)
    requires |qs| == 4 && forall k :: 0 <= k < 4 ==> Searchable(qs[k])
    ensures |r| == 4
  {
    [Scan(qs[0], Count(qs[0])), Scan(qs[1], Count(qs[1])), Scan(qs[2], Count(qs[2])), Scan(qs[3], Count(qs[3]))]
  }

  /** `mvectors[k] = v`: the vector's assignment operator copies v into the
      slot; every other slot keeps its value. */
  method Store(a: array<MV>, k: int, v: MV)
    requires Slots(a) && 0 <= k < a.Length && v.Valid()
    modifies a[k]
    ensures Slots(a)
    ensures a[k].Value() == old(v.Value())
    ensures forall l :: 0 <= l < a.Length && l != k ==> a[l].Value() == old(a[l].Value())
  {
    a[k].Assign(v);
  }

  class MotionEstimator {
    const width: int
    const height: int
    const quality: Byte
    const useHalfPixel: bool
    const widthExt: int
    const numBlocksHor: int
    const numBlocksVert: int
    const firstRowOffset: int

    /** The derived fields are those of the constructor's initialiser list. */
    predicate Valid()
    {
      widthExt == width + 2 * BORDER &&
      numBlocksHor == NumBlocks(width) && numBlocksVert == NumBlocks(height) &&
      firstRowOffset == widthExt * BORDER + BORDER
    }

    constructor (width: int, height: int, quality: Byte, useHalfPixel: bool)
      ensures this.width == width && this.height == height
      ensures this.quality == quality && this.useHalfPixel == useHalfPixel
      ensures Valid()
    {
      this.width := width;
      this.height := height;
      this.quality := quality;
      this.useHalfPixel := useHalfPixel;
      this.widthExt := width + 2 * BORDER;
      this.numBlocksHor := NumBlocks(width);
      this.numBlocksVert := NumBlocks(height);
      this.firstRowOffset := (width + 2 * BORDER) * BORDER + BORDER;
    }

    /** `first_row_offset` is the index of frame pixel (0, 0) in the padded
        plane: row BORDER, column BORDER. */
    lemma FirstRowOffsetIsOrigin()
      requires Valid() && 0 <= width
      ensures RowOf(widthExt, firstRowOffset) == BORDER && ColOf(widthExt, firstRowOffset) == BORDER
    {
      DivModIdx(widthExt, BORDER, BORDER);
    }

    /** Samples in a padded plane: BORDER extra rows above and below. */
    function PlaneLen(): int
    {
      widthExt * (height + 2 * BORDER)
    }

    /** What `Estimate` needs of its frames: dimensions that are multiples of
        the block size, a padded current frame, and a padded plane for every
        shift the enumeration lists. */
    predicate Frame(cur: seq<Byte>, planes: map<ShiftDir, seq<Byte>>, order: seq<ShiftDir>)
    {
      Valid() && 0 <= width && 0 <= height && width % BLOCK_SIZE == 0 && height % BLOCK_SIZE == 0 &&
      |cur| == PlaneLen() && 0 < |order| &&
      (forall k :: 0 <= k < |order| ==> order[k] in planes && |planes[order[k]]| == |cur|)
    }

    /** `vert_offset + hor_offset` of block (i, j). */
    function BlockBase(i: int, j: int): int
    {
      firstRowOffset + i * BLOCK_SIZE * widthExt + j * BLOCK_SIZE
    }

    /** `vert_offset + hor_offset` of quadrant h of block (i, j): the right
        half when h is odd, the lower half when h > 1. */
    function QuadBase(i: int, j: int, h: int): int
    {
      firstRowOffset + (i * BLOCK_SIZE + (if h > 1 then BLOCK_SIZE / 2 else 0)) * widthExt +
      j * BLOCK_SIZE + (if h % 2 == 1 then BLOCK_SIZE / 2 else 0)
    }

    function WholeSearch(cur: seq<Byte>, planes: map<ShiftDir, seq<Byte>>, order: seq<ShiftDir>, i: int, j: int): Search
      requires 0 <= widthExt
    {
      Search(cur, planes, order, widthExt, BlockBase(i, j), BLOCK_SIZE)
    }

    function QuadSearch(cur: seq<Byte>, planes: map<ShiftDir, seq<Byte>>, order: seq<ShiftDir>, i: int, j: int, h: int): Search
      requires 0 <= widthExt
    {
      Search(cur, planes, order, widthExt, QuadBase(i, j, h), BLOCK_SIZE / 2)
    }

    /** Block i of a dimension tiled by n blocks starts at most one block
        before its end. */
    lemma BlockRange(n: int, i: int)
      requires 0 <= n && n % BLOCK_SIZE == 0 && 0 <= i < NumBlocks(n)
      ensures i * BLOCK_SIZE + BLOCK_SIZE <= n
    {
      NumBlocksIsCeiling(n);
    }

    /** The search window of quadrant h of block (i, j) lies inside the padded
        plane. */
    lemma QuadSearchable(cur: seq<Byte>, planes: map<ShiftDir, seq<Byte>>, order: seq<ShiftDir>, i: int, j: int, h: int)
      requires Frame(cur, planes, order) && 0 <= i < numBlocksVert && 0 <= j < numBlocksHor && 0 <= h < 4
      ensures Searchable(QuadSearch(cur, planes, order, i, j, h))
    {
      BlockRange(height, i);
      BlockRange(width, j);
      var r := i * BLOCK_SIZE + (if h > 1 then BLOCK_SIZE / 2 else 0);
      MulNonneg(r, widthExt);
      MulMono(r, height - BLOCK_SIZE / 2, widthExt);
      assert QuadBase(i, j, h) == firstRowOffset + r * widthExt + j * BLOCK_SIZE + (if h % 2 == 1 then BLOCK_SIZE / 2 else 0);
      assert (height - 8) * widthExt + 40 * widthExt == PlaneLen();
    }

    /** The search window of block (i, j) and those of its quadrants lie
        inside the padded plane. */
    lemma BlockSearchable(cur: seq<Byte>, planes: map<ShiftDir, seq<Byte>>, order: seq<ShiftDir>, i: int, j: int)
      requires Frame(cur, planes, order) && 0 <= i < numBlocksVert && 0 <= j < numBlocksHor
      ensures Searchable(WholeSearch(cur, planes, order, i, j))
      ensures forall h :: 0 <= h < 4 ==> Searchable(QuadSearch(cur, planes, order, i, j, h))
    {
      BlockRange(height, i);
      BlockRange(width, j);
      MulNonneg(i * BLOCK_SIZE, widthExt);
      MulMono(i * BLOCK_SIZE, height - BLOCK_SIZE, widthExt);
      assert (height - 16) * widthExt + 48 * widthExt == PlaneLen();
      forall h | 0 <= h < 4
        ensures Searchable(QuadSearch(cur, planes, order, i, j, h))
      {
        QuadSearchable(cur, planes, order, i, j, h);
      }
    }

    /** The best whole-block vector of block (i, j). */
    function WholeVector(cur: seq<Byte>, planes: map<ShiftDir, seq<Byte>>, order: seq<ShiftDir>, i: int, j: int): Motion
      requires Frame(cur, planes, order) && 0 <= i < numBlocksVert && 0 <= j < numBlocksHor
    {
      BlockSearchable(cur, planes, order, i, j);
      Scan(WholeSearch(cur, planes, order, i, j), Count(WholeSearch(cur, planes, order, i, j)))
    }

    /** The best vector of quadrant h of block (i, j). */
    function QuadVector(cur: seq<Byte>, planes: map<ShiftDir, seq<Byte>>, order: seq<ShiftDir>, i: int, j: int, h: int): Motion
      requires Frame(cur, planes, order) && 0 <= i < numBlocksVert && 0 <= j < numBlocksHor && 0 <= h < 4
    {
      QuadSearchable(cur, planes, order, i, j, h);
      Scan(QuadSearch(cur, planes, order, i, j, h), Count(QuadSearch(cur, planes, order, i, j, h)))
    }

    /** The four quadrant vectors, top left, top right, bottom left, bottom
        right. */
    function Quads(cur: seq<Byte>, planes: map<ShiftDir, seq<Byte>>, order: seq<ShiftDir>, i: int, j: int): seq<Motion>
      requires Frame(cur, planes, order) && 0 <= i < numBlocksVert && 0 <= j < numBlocksHor
    {
      [QuadVector(cur, planes, order, i, j, 0), QuadVector(cur, planes, order, i, j, 1),
       QuadVector(cur, planes, order, i, j, 2), QuadVector(cur, planes, order, i, j, 3)]
    }

    /** The four quadrant searches of block (i, j). */
    function QuadSearches(cur: seq<Byte>, planes: map<ShiftDir, seq<Byte>>, order: seq<ShiftDir>, i: int, j: int): seq<Search>
      requires 0 <= widthExt
    {
      [QuadSearch(cur, planes, order, i, j, 0), QuadSearch(cur, planes, order, i, j, 1),
       QuadSearch(cur, planes, order, i, j, 2), QuadSearch(cur, planes, order, i, j, 3)]
    }

    /** Searching the four quadrants finds the four quadrant vectors. */
    lemma QuadSearchesScan(cur: seq<Byte>, planes: map<ShiftDir, seq<Byte>>, order: seq<ShiftDir>, i: int, j: int)
      requires Frame(cur, planes, order) && 0 <= i < numBlocksVert && 0 <= j < numBlocksHor
      ensures |QuadSearches(cur, planes, order, i, j)| == 4
      ensures forall k :: 0 <= k < 4 ==> Searchable(QuadSearches(cur, planes, order, i, j)[k])
      ensures QuadScans(QuadSearches(cur, planes, order, i, j)) == Quads(cur, planes, order, i, j)
    {
      BlockSearchable(cur, planes, order, i, j);
    }

    /** The block vector in terms of the searches `EstimateBlock` runs. */
    lemma BlockVectorSteps(cur: seq<Byte>, planes: map<ShiftDir, seq<Byte>>, order: seq<ShiftDir>, i: int, j: int)
      requires Frame(cur, planes, order) && 0 <= i < numBlocksVert && 0 <= j < numBlocksHor
      ensures Searchable(WholeSearch(cur, planes, order, i, j))
      ensures |QuadSearches(cur, planes, order, i, j)| == 4
      ensures forall k :: 0 <= k < 4 ==> Searchable(QuadSearches(cur, planes, order, i, j)[k])
      ensures var whole := Scan(WholeSearch(cur, planes, order, i, j), Count(WholeSearch(cur, planes, order, i, j)));
              BlockVector(cur, planes, order, i, j) ==
              if whole.error <= SPLIT_THRESHOLD then whole else Merge(whole, QuadScans(QuadSearches(cur, planes, order, i, j)))
    {
      QuadSearchesScan(cur, planes, order, i, j);
    }

    /** The sum of the four quadrant errors. */
    function QuadErrors(cur: seq<Byte>, planes: map<ShiftDir, seq<Byte>>, order: seq<ShiftDir>, i: int, j: int): int
      requires Frame(cur, planes, order) && 0 <= i < numBlocksVert && 0 <= j < numBlocksHor
    {
      SubErrors(Quads(cur, planes, order, i, j))
    }

    /** The vector stored for block (i, j): the whole-block vector, passed
        through the merge check with the four quadrant vectors when its
        error is above the threshold. */
    function BlockVector(cur: seq<Byte>, planes: map<ShiftDir, seq<Byte>>, order: seq<ShiftDir>, i: int, j: int): Motion
      requires Frame(cur, planes, order) && 0 <= i < numBlocksVert && 0 <= j < numBlocksHor
    {
      var whole := WholeVector(cur, planes, order, i, j);
      if whole.error <= SPLIT_THRESHOLD then whole else Merge(whole, Quads(cur, planes, order, i, j))
    }

        /** The whole-block fields of the stored vector: a shift from the
        enumerated planes, offsets within BORDER, the 16x16 SAD at that
        displacement as error (so the sentinel is always replaced), and no
        displacement in any plane with a smaller SAD. */
    lemma BlockVectorIsBest(cur: seq<Byte>, planes: map<ShiftDir, seq<Byte>>, order: seq<ShiftDir>, i: int, j: int)
      requires Frame(cur, planes, order) && 0 <= i < numBlocksVert && 0 <= j < numBlocksHor
      ensures Searchable(WholeSearch(cur, planes, order, i, j))
      ensures var v := BlockVector(cur, planes, order, i, j);
              v.dir in order && -BORDER <= v.y <= BORDER && -BORDER <= v.x <= BORDER && v.error < LONG_MAX &&
              v.error == Cost(WholeSearch(cur, planes, order, i, j), Candidate(v.dir, v.y, v.x))
      ensures forall c: Candidate :: c.dir in order && -BORDER <= c.y <= BORDER && -BORDER <= c.x <= BORDER ==>
                BlockVector(cur, planes, order, i, j).error <= Cost(WholeSearch(cur, planes, order, i, j), c)
    {
      BlockSearchable(cur, planes, order, i, j);
      var s := WholeSearch(cur, planes, order, i, j);
      BlockVectorWhole(cur, planes, order, i, j);
      assert BlockVector(cur, planes, order, i, j).(subs := None) == Scan(s, Count(s));
      ScanIsBest(s);
      ScanSentinel(s);
    }

    /** Merging only attaches sub-vectors: the stored vector's own fields are
        those of the whole-block search. */
    lemma BlockVectorWhole(cur: seq<Byte>, planes: map<ShiftDir, seq<Byte>>, order: seq<ShiftDir>, i: int, j: int)
      requires Frame(cur, planes, order) && 0 <= i < numBlocksVert && 0 <= j < numBlocksHor
      ensures BlockVector(cur, planes, order, i, j).(subs := None) == WholeVector(cur, planes, order, i, j)
    {
      WholeVectorIsLeaf(cur, planes, order, i, j);
    }

    /** Each quadrant vector is the best 8x8 match of its quadrant over the
        same planes and window, and is a leaf. */
    lemma QuadVectorIsBest(cur: seq<Byte>, planes: map<ShiftDir, seq<Byte>>, order: seq<ShiftDir>, i: int, j: int, h: int)
      requires Frame(cur, planes, order) && 0 <= i < numBlocksVert && 0 <= j < numBlocksHor && 0 <= h < 4
      ensures Searchable(QuadSearch(cur, planes, order, i, j, h))
      ensures var v := QuadVector(cur, planes, order, i, j, h);
              v.dir in order && -BORDER <= v.y <= BORDER && -BORDER <= v.x <= BORDER && v.subs.None? &&
              v.error == Cost(QuadSearch(cur, planes, order, i, j, h), Candidate(v.dir, v.y, v.x))
      ensures forall c: Candidate :: c.dir in order && -BORDER <= c.y <= BORDER && -BORDER <= c.x <= BORDER ==>
                QuadVector(cur, planes, order, i, j, h).error <= Cost(QuadSearch(cur, planes, order, i, j, h), c)
    {
      QuadSearchable(cur, planes, order, i, j, h);
      ScanIsBest(QuadSearch(cur, planes, order, i, j, h));
    }

    /** The split rule: sub-vectors are kept exactly when the whole-block
        error is above the threshold and the four quadrant errors total at
        most 0.7 of it; then they are the four quadrant vectors, none of them
        split.  Either way the whole-block fields are those of the 16x16
        search, so a block with error <= 1000 is a leaf. */
    lemma BlockVectorSplitRule(cur: seq<Byte>, planes: map<ShiftDir, seq<Byte>>, order: seq<ShiftDir>, i: int, j: int)
      requires Frame(cur, planes, order) && 0 <= i < numBlocksVert && 0 <= j < numBlocksHor
      ensures BlockVector(cur, planes, order, i, j).(subs := None) == WholeVector(cur, planes, order, i, j)
      ensures BlockVector(cur, planes, order, i, j).subs.Some? <==>
                WholeVector(cur, planes, order, i, j).error > SPLIT_THRESHOLD &&
                10 * QuadErrors(cur, planes, order, i, j) <= 7 * WholeVector(cur, planes, order, i, j).error
      ensures BlockVector(cur, planes, order, i, j).subs.Some? ==>
                var subs := BlockVector(cur, planes, order, i, j).subs.value;
                |subs| == 4 &&
                forall h :: 0 <= h < 4 ==> subs[h] == QuadVector(cur, planes, order, i, j, h) && subs[h].subs.None?
    {
      WholeVectorIsLeaf(cur, planes, order, i, j);
      QuadVectorsAreLeaves(cur, planes, order, i, j);
    }

    /** The whole-block search never splits. */
    lemma WholeVectorIsLeaf(cur: seq<Byte>, planes: map<ShiftDir, seq<Byte>>, order: seq<ShiftDir>, i: int, j: int)
      requires Frame(cur, planes, order) && 0 <= i < numBlocksVert && 0 <= j < numBlocksHor
      ensures WholeVector(cur, planes, order, i, j).subs.None?
    {
      BlockSearchable(cur, planes, order, i, j);
      ScanIsLeaf(WholeSearch(cur, planes, order, i, j));
    }

    /** Nor do the quadrant searches. */
    lemma QuadVectorsAreLeaves(cur: seq<Byte>, planes: map<ShiftDir, seq<Byte>>, order: seq<ShiftDir>, i: int, j: int)
      requires Frame(cur, planes, order) && 0 <= i < numBlocksVert && 0 <= j < numBlocksHor
      ensures forall h :: 0 <= h < 4 ==> QuadVector(cur, planes, order, i, j, h).subs.None?
    {
      forall h | 0 <= h < 4
        ensures QuadVector(cur, planes, order, i, j, h).subs.None?
      {
        QuadSearchable(cur, planes, order, i, j, h);
        ScanIsLeaf(QuadSearch(cur, planes, order, i, j, h));
      }
    }

    /** The four quadrant vectors together never cost more than the whole
        block: the whole-block displacement, applied to each quadrant, already
        achieves its part of the 16x16 SAD. */
    lemma QuadrantsBelowWhole(cur: seq<Byte>, planes: map<ShiftDir, seq<Byte>>, order: seq<ShiftDir>, i: int, j: int)
      requires Frame(cur, planes, order) && 0 <= i < numBlocksVert && 0 <= j < numBlocksHor
      ensures QuadErrors(cur, planes, order, i, j) <= WholeVector(cur, planes, order, i, j).error
    {
      BlockSearchable(cur, planes, order, i, j);
      var s := WholeSearch(cur, planes, order, i, j);
      assert (i * BLOCK_SIZE + 8) * widthExt == i * BLOCK_SIZE * widthExt + 8 * widthExt;
      QuadScansBelowWhole(s, 8, QuadSearch(cur, planes, order, i, j, 0), QuadSearch(cur, planes, order, i, j, 1),
                          QuadSearch(cur, planes, order, i, j, 2), QuadSearch(cur, planes, order, i, j, 3));
    }

    /** A block identical to the co-located block of one of the planes gets
        error 0 and stays whole. */
    lemma StaticBlockIsZero(cur: seq<Byte>, planes: map<ShiftDir, seq<Byte>>, order: seq<ShiftDir>, i: int, j: int, p: int)
      requires Frame(cur, planes, order) && 0 <= i < numBlocksVert && 0 <= j < numBlocksHor && 0 <= p < |order|
      requires InBlock(|cur|, BlockBase(i, j), widthExt, 16, 16) && InBlock(|planes[order[p]]|, BlockBase(i, j), widthExt, 16, 16)
      requires SameBlock(cur, BlockBase(i, j), planes[order[p]], BlockBase(i, j), widthExt, 16, 16)
      ensures BlockVector(cur, planes, order, i, j).error == 0
      ensures BlockVector(cur, planes, order, i, j).subs.None?
    {
      BlockSearchable(cur, planes, order, i, j);
      StaticBlockScan(WholeSearch(cur, planes, order, i, j), p);
      ScanIsLeaf(WholeSearch(cur, planes, order, i, j));
    }

    /** `quality` is stored but never read: two estimators that differ only
        in it store the same vectors. */
    lemma QualityIgnored(other: MotionEstimator, cur: seq<Byte>, planes: map<ShiftDir, seq<Byte>>, order: seq<ShiftDir>,
                         i: int, j: int)
      requires Frame(cur, planes, order) && 0 <= i < numBlocksVert && 0 <= j < numBlocksHor
      requires other.Valid() && other.width == width && other.height == height && other.useHalfPixel == useHalfPixel
      ensures other.Frame(cur, planes, order) && i < other.numBlocksVert && j < other.numBlocksHor
      ensures other.BlockVector(cur, planes, order, i, j) == BlockVector(cur, planes, order, i, j)
    {
      assert other.WholeSearch(cur, planes, order, i, j) == WholeSearch(cur, planes, order, i, j);
      forall h | 0 <= h < 4
        ensures other.QuadSearch(cur, planes, order, i, j, h) == QuadSearch(cur, planes, order, i, j, h)
      {
      }
    }

    /** One quadrant search: sub-vector h, reset to the sentinel error,
        receives the best vector of its 8x8 search; the other sub-vectors and
        the whole-block fields are untouched. */
    static method SearchQuadrant(best: MV, s: Search, h: int)
      requires best.Valid() && best.IsSplit() && 0 <= h < 4 && Searchable(s)
      requires best.SubVector(h).Fields() == DefaultMotion
      modifies best.SubVector(h)
      ensures best.Valid() && best.Repr == old(best.Repr)
      ensures best.Value() == old(best.Value()).(subs := Some(old(best.Value()).subs.value[h := Scan(s, Count(s))]))
    {
      ghost var before := best.Value().subs.value;
      var sub := best.SubVector(h);
      sub.error := LONG_MAX;
      SearchBlock(s, sub);
      ghost var after := best.Value().subs.value;
      assert |after| == 4 && after[h] == Scan(s, Count(s));
      forall k | 0 <= k < 4 && k != h
        ensures after[k] == before[k]
      {
        assert best.subvectors[k] != sub;
      }
      assert after == before[h := Scan(s, Count(s))];
    }

    /** The four quadrant searches of a block, each into its sub-vector of
        the freshly split `best`; the whole-block fields are untouched. */
    static method SearchQuadrants(best: MV, qs: seq<Search>)
      requires best.Valid() && best.IsSplit() && |qs| == 4 && |best.Value().subs.value| == 4
      requires forall k :: 0 <= k < 4 ==> Searchable(qs[k]) && best.Value().subs.value[k] == DefaultMotion
      modifies best.Repr - {best}
      ensures best.Valid() && best.Repr == old(best.Repr)
      ensures best.Value() == old(best.Value()).(subs := Some(QuadScans(qs)))
    {
      ghost var subs := best.Value().subs.value;
      var h := 0;
      while h < 4
        invariant 0 <= h <= 4 && |subs| == 4
        invariant best.Valid() && best.Repr == old(best.Repr) && best.IsSplit()
        invariant best.Value() == old(best.Value()).(subs := Some(subs))
        invariant forall k :: 0 <= k < h ==> subs[k] == Scan(qs[k], Count(qs[k]))
        invariant forall k :: h <= k < 4 ==> subs[k] == DefaultMotion
      {
        SearchQuadrant(best, qs[h], h);
        subs := subs[h := Scan(qs[h], Count(qs[h]))];
        h := h + 1;
      }
    }

    /** The second half of one block, once its whole-block vector is above
        the threshold: the split, the quadrant searches into the
        sub-vectors, and the merge check. */
    static method RefineBlock(best: MV, qs: seq<Search>)
      requires best.Valid() && best.Value().subs.None? && |qs| == 4
      requires forall k :: 0 <= k < 4 ==> Searchable(qs[k])
      modifies best
      ensures best.Valid() && fresh(best.Repr - {best})
      ensures best.Value() == Merge(old(best.Value()), QuadScans(qs))
    {
      best.Split();
      SearchQuadrants(best, qs);
      var sum := best.SubVector(0).error + best.SubVector(1).error + best.SubVector(2).error + best.SubVector(3).error;
      if 10 * sum > 7 * best.error {
        best.Unsplit();
      }
    }

    /** One block: the whole-block search into `best_vector`, then, above
        the threshold, the split, the quadrant searches and the merge
        check. */
    method EstimateBlock(cur: seq<Byte>, planes: map<ShiftDir, seq<Byte>>, order: seq<ShiftDir>, i: int, j: int)
      returns (best: MV)
      requires Frame(cur, planes, order) && 0 <= i < numBlocksVert && 0 <= j < numBlocksHor
      ensures best.Valid() && fresh(best.Repr)
      ensures best.Value() == BlockVector(cur, planes, order, i, j)
    {
      BlockVectorSteps(cur, planes, order, i, j);
      best := new MV.Default();
      best.error := LONG_MAX;
      SearchBlock(WholeSearch(cur, planes, order, i, j), best);
      if best.error > SPLIT_THRESHOLD {
        RefineBlock(best, QuadSearches(cur, planes, order, i, j));
      }
    }

    /** The block row of output slot k: whole rows of numBlocksHor slots
        counted off one at a time. */
    function SlotRow(k: int): int
      requires 0 <= k && 0 < numBlocksHor
      decreases k
    {
      if k < numBlocksHor then 0 else SlotRow(k - numBlocksHor) + 1
    }

    /** The block column of output slot k. */
    function SlotCol(k: int): int
      requires 0 <= k && 0 < numBlocksHor
      decreases k
    {
      if k < numBlocksHor then k else SlotCol(k - numBlocksHor)
    }

    /** Slot k is row SlotRow(k), column SlotCol(k) of the block grid. */
    lemma {:induction false} SlotRowColIdx(k: int)
      requires 0 <= k && 0 < numBlocksHor
      ensures 0 <= SlotRow(k) && 0 <= SlotCol(k) < numBlocksHor
      ensures SlotRow(k) * numBlocksHor + SlotCol(k) == k
      decreases k
    {
      if k >= numBlocksHor {
        SlotRowColIdx(k - numBlocksHor);
        assert SlotRow(k) * numBlocksHor == SlotRow(k - numBlocksHor) * numBlocksHor + numBlocksHor;
      }
    }

    /** Every slot of the output names a block of the frame. */
    lemma SlotRowCol(k: int)
      requires 0 <= numBlocksVert && 0 <= k < numBlocksVert * numBlocksHor
      ensures 0 < numBlocksHor
      ensures 0 <= SlotRow(k) < numBlocksVert && 0 <= SlotCol(k) < numBlocksHor
    {
      if numBlocksHor <= 0 {
        MulNonneg(numBlocksVert, -numBlocksHor);
      }
      SlotRowColIdx(k);
      if SlotRow(k) >= numBlocksVert {
        MulMono(numBlocksVert, SlotRow(k), numBlocksHor);
      }
    }

    /** Slot i * numBlocksHor + j is row i, column j. */
    lemma {:induction false} SlotOfRowCol(i: int, j: int)
      requires 0 <= i && 0 <= j < numBlocksHor
      ensures 0 <= i * numBlocksHor + j
      ensures SlotRow(i * numBlocksHor + j) == i && SlotCol(i * numBlocksHor + j) == j
    {
      if i > 0 {
        SlotOfRowCol(i - 1, j);
        assert i * numBlocksHor + j - numBlocksHor == (i - 1) * numBlocksHor + j;
      }
    }

    /** The vector of output slot k. */
    function SlotVector(cur: seq<Byte>, planes: map<ShiftDir, seq<Byte>>, order: seq<ShiftDir>, k: int): Motion
      requires Frame(cur, planes, order) && 0 <= k < numBlocksVert * numBlocksHor
    {
      NumBlocksIsCeiling(height);
      SlotRowCol(k);
      BlockVector(cur, planes, order, SlotRow(k), SlotCol(k))
    }

    /** Slot i * numBlocksHor + j is block (i, j), and it is a slot of the
        output. */
    lemma SlotOfBlock(cur: seq<Byte>, planes: map<ShiftDir, seq<Byte>>, order: seq<ShiftDir>, i: int, j: int)
      requires Frame(cur, planes, order) && 0 <= i < numBlocksVert && 0 <= j < numBlocksHor
      ensures 0 <= i * numBlocksHor + j < numBlocksVert * numBlocksHor
      ensures SlotVector(cur, planes, order, i * numBlocksHor + j) == BlockVector(cur, planes, order, i, j)
    {
      SlotIndex(numBlocksHor, numBlocksVert, i, j);
      SlotOfRowCol(i, j);
    }

    /** The slots of rows 0 to i. */
    lemma SlotRows(i: int)
      requires 0 <= i < numBlocksVert && 0 <= numBlocksHor
      ensures 0 <= i * numBlocksHor
      ensures i * numBlocksHor + numBlocksHor == (i + 1) * numBlocksHor <= numBlocksVert * numBlocksHor
    {
      MulNonneg(i, numBlocksHor);
      MulMono(i + 1, numBlocksVert, numBlocksHor);
    }

    /** The frames `Estimate` searches satisfy `Frame`. */
    lemma FrameOfPlanes(cur: seq<Byte>, prev: seq<Byte>, up: seq<Byte>, left: seq<Byte>, upLeft: seq<Byte>, order: seq<ShiftDir>)
      requires Valid() && 0 <= width && 0 <= height && width % BLOCK_SIZE == 0 && height % BLOCK_SIZE == 0
      requires |cur| == PlaneLen() && |prev| == PlaneLen()
      requires useHalfPixel ==> |up| == PlaneLen() && |left| == PlaneLen() && |upLeft| == PlaneLen()
      requires Enumerates(order, RefDirs(useHalfPixel))
      ensures Frame(cur, PrevMap(prev, up, left, upLeft, useHalfPixel), order)
    {
      assert NoShift in RefDirs(useHalfPixel);
      forall k | 0 <= k < |order|
        ensures order[k] in PrevMap(prev, up, left, upLeft, useHalfPixel)
        ensures |PrevMap(prev, up, left, upLeft, useHalfPixel)[order[k]]| == |cur|
      {
        assert order[k] in RefDirs(useHalfPixel);
      }
    }

    /** Block (i, j) is estimated and its vector assigned to its output
        slot `blockId`. */
    method EstimateSlot(cur: seq<Byte>, planes: map<ShiftDir, seq<Byte>>, order: seq<ShiftDir>, i: int, j: int,
                        mvectors: array<MV>, blockId: int)
      requires Frame(cur, planes, order) && 0 <= i < numBlocksVert && 0 <= j < numBlocksHor
      requires blockId == i * numBlocksHor + j
      requires numBlocksVert * numBlocksHor <= mvectors.Length && Slots(mvectors)
      modifies set k | 0 <= k < mvectors.Length :: mvectors[k]
      ensures 0 <= blockId < numBlocksVert * numBlocksHor
      ensures Slots(mvectors)
      ensures mvectors[blockId].Value() == SlotVector(cur, planes, order, blockId)
      ensures forall l :: 0 <= l < mvectors.Length && l != blockId ==> mvectors[l].Value() == old(mvectors[l].Value())
    {
      var best := EstimateBlock(cur, planes, order, i, j);
      assert Slots(mvectors);
      assert forall l :: 0 <= l < mvectors.Length ==> mvectors[l].Value() == old(mvectors[l].Value());
      SlotIndex(numBlocksHor, numBlocksVert, i, j);
      Store(mvectors, blockId, best);
      SlotOfBlock(cur, planes, order, i, j);
    }

    /** `Estimate`: the vector of every block, stored in its slot of
        `mvectors`; the slots past the last block keep their values. */
    method Estimate(cur: seq<Byte>, prev: seq<Byte>, prevUp: seq<Byte>, prevLeft: seq<Byte>, prevUpLeft: seq<Byte>,
                    order: seq<ShiftDir>, mvectors: array<MV>)
      requires Valid() && 0 <= width && 0 <= height && width % BLOCK_SIZE == 0 && height % BLOCK_SIZE == 0
      requires |cur| == PlaneLen() && |prev| == PlaneLen()
      requires useHalfPixel ==> |prevUp| == PlaneLen() && |prevLeft| == PlaneLen() && |prevUpLeft| == PlaneLen()
      requires Enumerates(order, RefDirs(useHalfPixel))
      requires numBlocksVert * numBlocksHor <= mvectors.Length
      requires Slots(mvectors)
      modifies set k | 0 <= k < mvectors.Length :: mvectors[k]
      ensures Slots(mvectors)
      ensures Frame(cur, PrevMap(prev, prevUp, prevLeft, prevUpLeft, useHalfPixel), order)
      ensures forall k :: 0 <= k < numBlocksVert * numBlocksHor ==>
                mvectors[k].Value() == SlotVector(cur, PrevMap(prev, prevUp, prevLeft, prevUpLeft, useHalfPixel), order, k)
      ensures forall k :: numBlocksVert * numBlocksHor <= k < mvectors.Length ==>
                mvectors[k].Value() == old(mvectors[k].Value())
    {
      var prevMap := map[NoShift := prev];
      if useHalfPixel {
        prevMap := prevMap[Up := prevUp];
        prevMap := prevMap[Left := prevLeft];
        prevMap := prevMap[UpLeft := prevUpLeft];
      }
      assert prevMap == PrevMap(prev, prevUp, prevLeft, prevUpLeft, useHalfPixel);
      FrameOfPlanes(cur, prev, prevUp, prevLeft, prevUpLeft, order);
      NumBlocksIsCeiling(height);
      NumBlocksIsCeiling(width);
      MulNonneg(numBlocksVert, numBlocksHor);
      ghost var want := seq(numBlocksVert * numBlocksHor, k requires 0 <= k < numBlocksVert * numBlocksHor =>
                                                           SlotVector(cur, prevMap, order, k));
      EstimateRows(cur, prevMap, order, mvectors, want);
    }

    /** `want` lists the vectors of the output slots 0 .. numBlocksVert *
        numBlocksHor - 1. */
    ghost predicate Wanted(cur: seq<Byte>, planes: map<ShiftDir, seq<Byte>>, order: seq<ShiftDir>, want: seq<Motion>)
    {
      Frame(cur, planes, order) && |want| == numBlocksVert * numBlocksHor &&
      forall k {:trigger SlotVector(cur, planes, order, k)} :: 0 <= k < |want| ==> want[k] == SlotVector(cur, planes, order, k)
    }

    /** The two loops over the blocks, row by row. */
    method EstimateRows(cur: seq<Byte>, planes: map<ShiftDir, seq<Byte>>, order: seq<ShiftDir>, mvectors: array<MV>,
                        ghost want: seq<Motion>)
      requires Wanted(cur, planes, order, want)
      requires numBlocksVert * numBlocksHor <= mvectors.Length && Slots(mvectors)
      modifies set k | 0 <= k < mvectors.Length :: mvectors[k]
      ensures Slots(mvectors)
      ensures forall k :: 0 <= k < |want| ==> mvectors[k].Value() == want[k]
      ensures forall k :: |want| <= k < mvectors.Length ==> mvectors[k].Value() == old(mvectors[k].Value())
    {
      NumBlocksIsCeiling(height);
      NumBlocksIsCeiling(width);
      MulNonneg(numBlocksVert, numBlocksHor);
      ghost var first := 0;
      var i := 0;
      while i < numBlocksVert
        invariant 0 <= i <= numBlocksVert && first == i * numBlocksHor
        invariant 0 <= first <= |want|
        invariant Slots(mvectors)
        invariant forall k :: 0 <= k < first ==> mvectors[k].Value() == want[k]
        invariant forall k :: first <= k < mvectors.Length ==> mvectors[k].Value() == old(mvectors[k].Value())
      {
        SlotRows(i);
        EstimateRow(cur, planes, order, i, first, mvectors, want);
        first := first + numBlocksHor;
        i := i + 1;
      }
    }

    /** One pass of the outer loop: the vectors of the blocks of row i, in
        slots first = i * numBlocksHor to first + numBlocksHor - 1. */
    method EstimateRow(cur: seq<Byte>, planes: map<ShiftDir, seq<Byte>>, order: seq<ShiftDir>, i: int, ghost first: int,
                       mvectors: array<MV>, ghost want: seq<Motion>)
      requires Wanted(cur, planes, order, want) && 0 <= i < numBlocksVert && first == i * numBlocksHor
      requires |want| <= mvectors.Length && Slots(mvectors)
      modifies set k | 0 <= k < mvectors.Length :: mvectors[k]
      ensures 0 <= first && first + numBlocksHor <= |want|
      ensures Slots(mvectors)
      ensures forall k :: first <= k < first + numBlocksHor ==> mvectors[k].Value() == want[k]
      ensures forall k :: 0 <= k < mvectors.Length && !(first <= k < first + numBlocksHor) ==>
                mvectors[k].Value() == old(mvectors[k].Value())
    {
      NumBlocksIsCeiling(width);
      SlotRows(i);
      var j := 0;
      while j < numBlocksHor
        invariant 0 <= j <= numBlocksHor
        invariant Slots(mvectors)
        invariant forall k :: first <= k < first + j ==> mvectors[k].Value() == want[k]
        invariant forall k :: 0 <= k < mvectors.Length && !(first <= k < first + j) ==>
                    mvectors[k].Value() == old(mvectors[k].Value())
      {
        EstimateSlot(cur, planes, order, i, j, mvectors, i * numBlocksHor + j);
        j := j + 1;
      }
    }
  }
}
