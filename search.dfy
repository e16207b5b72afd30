// The exhaustive block search of the motion estimator.  For one block of the
// current frame it tries every reference plane, in the order the planes are
// enumerated, and within a plane every displacement (x, y) with
// -BORDER <= x, y <= BORDER, y in the outer loop and x in the inner one; a
// candidate replaces the best so far only when its SAD is strictly smaller.
//
// Candidates are numbered in that order, so the search is the left fold
// `Scan` over candidates 0 .. n - 1, and what it finds is the first candidate
// of least SAD.
module Search {
  import opened Grid
  import opened Metric
  import opened Vectors

  /** How far a vector may reach past the frame edge (`BORDER`). */
  const BORDER: int := 16
  /** Displacements per axis, -BORDER .. BORDER: 2 * BORDER + 1. */
  const WINDOW: int := 33
  /** Candidates per reference plane: WINDOW * WINDOW. */
  const PER_PLANE: int := 1089

  datatype Candidate = Candidate(dir: ShiftDir, y: int, x: int)

  /** One block search: the current frame, the reference planes by shift,
      their enumeration order, the stride, the flat index of the block (the
      same in every plane) and the block size (16 or 8). */
  datatype Search = Search(cur: seq<Byte>, planes: map<ShiftDir, seq<Byte>>, order: seq<ShiftDir>,
                           w: nat, base: int, size: nat)

  /** Rows of the current block the SAD reads: `GetErrorSAD_16x16` loads one
      row ahead. */
  function CurRows(size: nat): nat
  {
    if size == 16 then 17 else size
  }

  /** Every candidate block lies inside its plane: the window reaches BORDER
      rows and columns around the block, and each plane is as long as the
      current frame.  (For the 16x16 size this also covers the extra row of
      the current frame that the SAD loads.) */
  predicate Searchable(s: Search)
  {
    (forall k :: 0 <= k < |s.order| ==> s.order[k] in s.planes && |s.planes[s.order[k]]| == |s.cur|) &&
    0 <= s.base - BORDER * s.w - BORDER &&
    ((s.size == 16 && s.base + (BORDER + 15) * s.w + BORDER + 16 <= |s.cur|) ||
     (s.size == 8 && s.base + (BORDER + 7) * s.w + BORDER + 8 <= |s.cur|))
  }

  function Count(s: Search): int
  {
    |s.order| * PER_PLANE
  }

  /** Flat index of the candidate block at displacement (c.x, c.y): c.y rows
      and c.x columns away from the current block. */
  function CandBase(s: Search, c: Candidate): int
  {
    s.base + RowOffset(s.w, c.y) + c.x
  }

  /** The candidate block at displacement (x, y) lies inside its plane, and
      the current block inside the current frame. */
  lemma CandInBlock(s: Search, c: Candidate)
    requires Searchable(s) && c.dir in s.order && -BORDER <= c.y <= BORDER && -BORDER <= c.x <= BORDER
    ensures c.dir in s.planes
    ensures InBlock(|s.planes[c.dir]|, CandBase(s, c), s.w, s.size, s.size)
    ensures InBlock(|s.cur|, s.base, s.w, CurRows(s.size), s.size)
    ensures InBlock(|s.cur|, s.base, s.w, s.size, s.size)
  {
    var b := CandBase(s, c);
    RowOffsetIsProduct(s.w, c.y);
    MulMono(-BORDER, c.y, s.w);
    MulMono(c.y, BORDER, s.w);
    if s.size == 16 {
      InBlockSpan(|s.planes[c.dir]|, b, s.w, 16, 16);
      InBlockSpan(|s.cur|, s.base, s.w, 17, 16);
      InBlockSpan(|s.cur|, s.base, s.w, 16, 16);
    } else {
      InBlockSpan(|s.planes[c.dir]|, b, s.w, 8, 8);
      InBlockSpan(|s.cur|, s.base, s.w, 8, 8);
    }
  }

  /** The SAD of candidate c against the current block. */
  function Cost(s: Search, c: Candidate): nat
    requires Searchable(s) && c.dir in s.order && -BORDER <= c.y <= BORDER && -BORDER <= c.x <= BORDER
  {
    CandInBlock(s, c);
    BlockSad(s.cur, s.base, s.planes[c.dir], CandBase(s, c), s.w, s.size, s.size)
  }


  /** One step of the search: a candidate replaces the best so far only when
      its error is strictly smaller. */
  function Pick(best: Motion, f: Motion): (r: Motion)
    ensures r == best || r == f
    ensures r.error <= best.error && r.error <= f.error
    ensures r == f <==> f.error < best.error || f == best
  {
    if f.error < best.error then f else best
  }

  /** The best vector after the first n of the vectors fs, starting from a
      default vector whose error is LONG_MAX. */
  function Fold(fs: seq<Motion>, n: int): Motion
    requires 0 <= n <= |fs|
  {
    if n == 0 then DefaultMotion else Pick(Fold(fs, n - 1), fs[n - 1])
  }

  /** When every error is below LONG_MAX, the fold over n > 0 vectors gives
      the first one of least error: it is fs[m], every earlier one is
      strictly worse and none is better. */
  lemma {:induction false} FoldIsFirstMinimum(fs: seq<Motion>, n: int)
    requires 0 < n <= |fs|
    requires forall k :: 0 <= k < |fs| ==> fs[k].error < LONG_MAX
    ensures exists m :: 0 <= m < n && Fold(fs, n) == fs[m] &&
                        (forall k :: 0 <= k < m ==> fs[k].error > Fold(fs, n).error)
    ensures forall k :: 0 <= k < n ==> Fold(fs, n).error <= fs[k].error
  {
    if n == 1 {
      assert Fold(fs, 1) == fs[0];
    } else {
      FoldIsFirstMinimum(fs, n - 1);
      var m :| 0 <= m < n - 1 && Fold(fs, n - 1) == fs[m] &&
               (forall k :: 0 <= k < m ==> fs[k].error > Fold(fs, n - 1).error);
      if fs[n - 1].error < Fold(fs, n - 1).error {
        assert Fold(fs, n) == fs[n - 1];
      } else {
        assert Fold(fs, n) == fs[m];
      }
    }
  }

  /** A displacement the loops try: a plane of the enumeration, offsets
      within BORDER. */
  predicate InWindow(order: seq<ShiftDir>, c: Candidate)
  {
    c.dir in order && -BORDER <= c.y <= BORDER && -BORDER <= c.x <= BORDER
  }

  /** The number the loops give to plane p, row y, column x. */
  function Flat(p: int, y: int, x: int): int
  {
    p * PER_PLANE + (y + BORDER) * WINDOW + (x + BORDER)
  }

  /** Two in-window positions with the same number are the same position. */
  lemma FlatInjective(p: int, y: int, x: int, q: int, b: int, a: int)
    requires -BORDER <= y <= BORDER && -BORDER <= x <= BORDER
    requires -BORDER <= b <= BORDER && -BORDER <= a <= BORDER
    requires Flat(p, y, x) == Flat(q, b, a)
    ensures p == q && y == b && x == a
  {
  }

  /** A position of the loops: plane p (at most the number of planes, and
      then only at its first row and column), row y, column x. */
  predicate Position(order: seq<ShiftDir>, p: int, y: int, x: int)
  {
    0 <= p <= |order| && -BORDER <= y <= BORDER && -BORDER <= x <= BORDER &&
    (p == |order| ==> y == -BORDER && x == -BORDER)
  }

  /** The displacements the loops try from plane p, row y, column x on, in
      their order: x runs fastest, then y, then the plane. */
  function Positions(order: seq<ShiftDir>, p: int, y: int, x: int): (cs: seq<Candidate>)
    requires Position(order, p, y, x)
    ensures |cs| == |order| * PER_PLANE - Flat(p, y, x)
    ensures forall i :: 0 <= i < |cs| ==> InWindow(order, cs[i])
    decreases |order| * PER_PLANE - Flat(p, y, x)
  {
    if p == |order| then []
    else if x < BORDER then [Candidate(order[p], y, x)] + Positions(order, p, y, x + 1)
    else if y < BORDER then [Candidate(order[p], y, x)] + Positions(order, p, y + 1, -BORDER)
    else [Candidate(order[p], y, x)] + Positions(order, p + 1, -BORDER, -BORDER)
  }

  /** From position (p, y, x) on, the displacement at plane q, row b,
      column a comes Flat(q, b, a) - Flat(p, y, x) places later. */
  lemma {:induction false} PositionsAt(order: seq<ShiftDir>, p: int, y: int, x: int, q: int, b: int, a: int)
    requires Position(order, p, y, x)
    requires 0 <= q < |order| && -BORDER <= b <= BORDER && -BORDER <= a <= BORDER
    requires Flat(p, y, x) <= Flat(q, b, a)
    ensures Positions(order, p, y, x)[Flat(q, b, a) - Flat(p, y, x)] == Candidate(order[q], b, a)
    decreases Flat(q, b, a) - Flat(p, y, x)
  {
    if Flat(p, y, x) == Flat(q, b, a) {
      FlatInjective(p, y, x, q, b, a);
    } else if x < BORDER {
      PositionsAt(order, p, y, x + 1, q, b, a);
    } else if y < BORDER {
      PositionsAt(order, p, y + 1, -BORDER, q, b, a);
    } else {
      PositionsAt(order, p + 1, -BORDER, -BORDER, q, b, a);
    }
  }

  /** Every displacement the loops try, in their order. */
  function Visits(order: seq<ShiftDir>): (cs: seq<Candidate>)
    ensures |cs| == |order| * PER_PLANE
    ensures forall i :: 0 <= i < |cs| ==> InWindow(order, cs[i])
  {
    Positions(order, 0, -BORDER, -BORDER)
  }

  /** The vector the search records for displacement c. */
  function Record(s: Search, c: Candidate): Motion
    requires Searchable(s) && InWindow(s.order, c)
  {
    Motion(c.x, c.y, c.dir, Cost(s, c), None)
  }

  /** The vectors recorded for the displacements cs, in order. */
  function Records(s: Search, cs: seq<Candidate>): (fs: seq<Motion>)
    requires Searchable(s) && forall i :: 0 <= i < |cs| ==> InWindow(s.order, cs[i])
    ensures |fs| == |cs|
  {
    if cs == [] then [] else [Record(s, cs[0])] + Records(s, cs[1..])
  }

  lemma {:induction false} RecordsAt(s: Search, cs: seq<Candidate>, i: int)
    requires Searchable(s) && forall i :: 0 <= i < |cs| ==> InWindow(s.order, cs[i])
    requires 0 <= i < |cs|
    ensures Records(s, cs)[i] == Record(s, cs[i])
  {
    if i > 0 {
      RecordsAt(s, cs[1..], i - 1);
    }
  }

  /** Every candidate of the search, in the order the loops visit them. */
  function Candidates(s: Search): (fs: seq<Motion>)
    requires Searchable(s)
    ensures |fs| == Count(s)
  {
    Records(s, Visits(s.order))
  }

  /** The result of the search over the first n candidates. */
  function Scan(s: Search, n: int): (m: Motion)
    requires Searchable(s) && 0 <= n <= Count(s)
  {
    Fold(Candidates(s), n)
  }

  /** No SAD reaches LONG_MAX. */
  lemma CostBelowSentinel(s: Search, c: Candidate)
    requires Searchable(s) && c.dir in s.order && -BORDER <= c.y <= BORDER && -BORDER <= c.x <= BORDER
    ensures Cost(s, c) <= 255 * 256 < LONG_MAX
  {
    CandInBlock(s, c);
    if s.size == 16 {
      BlockSadBound(s.cur, s.base, s.planes[c.dir], CandBase(s, c), s.w, 16, 16);
    } else {
      BlockSadBound(s.cur, s.base, s.planes[c.dir], CandBase(s, c), s.w, 8, 8);
    }
  }

  /** Candidate n is the vector recorded for the n-th displacement the
      loops try. */
  lemma CandidateAt(s: Search, n: int)
    requires Searchable(s) && 0 <= n < Count(s)
    ensures InWindow(s.order, Visits(s.order)[n])
    ensures Candidates(s)[n] == Record(s, Visits(s.order)[n])
  {
    RecordsAt(s, Visits(s.order), n);
  }

  /** After n > 0 candidates the search holds the first candidate of least
      SAD: it is candidate m, every candidate before m is strictly worse, and
      none of the n is better.  In particular the LONG_MAX sentinel has been
      replaced. */
  lemma ScanIsFirstMinimum(s: Search, n: int)
    requires Searchable(s) && 0 < n <= Count(s)
    ensures exists m :: 0 <= m < n && Scan(s, n) == Candidates(s)[m] &&
                        (forall k :: 0 <= k < m ==> Candidates(s)[k].error > Scan(s, n).error)
    ensures forall k :: 0 <= k < n ==> Scan(s, n).error <= Candidates(s)[k].error
    ensures Scan(s, n).error < LONG_MAX
  {
    var fs := Candidates(s);
    forall k | 0 <= k < |fs|
      ensures fs[k].error < LONG_MAX
    {
      CandidateAt(s, k);
      CostBelowSentinel(s, Visits(s.order)[k]);
    }
    FoldIsFirstMinimum(fs, n);
  }

  /** The search result as a displacement: a leaf whose shift is one of the
      planes searched, whose offsets lie in the window and whose error is the
      SAD at that displacement. */
  lemma ScanIsCandidate(s: Search)
    requires Searchable(s) && 0 < |s.order|
    ensures Scan(s, Count(s)).dir in s.order && Scan(s, Count(s)).subs.None?
    ensures -BORDER <= Scan(s, Count(s)).y <= BORDER && -BORDER <= Scan(s, Count(s)).x <= BORDER
    ensures Scan(s, Count(s)).error ==
            Cost(s, Candidate(Scan(s, Count(s)).dir, Scan(s, Count(s)).y, Scan(s, Count(s)).x))
  {
    ScanIsFirstMinimum(s, Count(s));
    var m :| 0 <= m < Count(s) && Scan(s, Count(s)) == Candidates(s)[m];
    CandidateAt(s, m);
    var cm := Visits(s.order)[m];
    assert Scan(s, Count(s)) == Motion(cm.x, cm.y, cm.dir, Cost(s, cm), None);
  }

  /** ... and no displacement in any plane beats it. */
  lemma ScanIsBest(s: Search)
    requires Searchable(s) && 0 < |s.order|
    ensures Scan(s, Count(s)).dir in s.order && Scan(s, Count(s)).subs.None?
    ensures -BORDER <= Scan(s, Count(s)).y <= BORDER && -BORDER <= Scan(s, Count(s)).x <= BORDER
    ensures Scan(s, Count(s)).error ==
            Cost(s, Candidate(Scan(s, Count(s)).dir, Scan(s, Count(s)).y, Scan(s, Count(s)).x))
    ensures forall c: Candidate :: c.dir in s.order && -BORDER <= c.y <= BORDER && -BORDER <= c.x <= BORDER ==>
              Scan(s, Count(s)).error <= Cost(s, c)
  {
    ScanIsCandidate(s);
    forall c: Candidate | c.dir in s.order && -BORDER <= c.y <= BORDER && -BORDER <= c.x <= BORDER
      ensures Scan(s, Count(s)).error <= Cost(s, c)
    {
      ScanBeats(s, c);
    }
  }

  /** The search result is a leaf: the search never splits. */
  lemma ScanIsLeaf(s: Search)
    requires Searchable(s) && 0 < |s.order|
    ensures Scan(s, Count(s)).subs.None?
  {
    ScanIsFirstMinimum(s, Count(s));
    var m :| 0 <= m < Count(s) && Scan(s, Count(s)) == Candidates(s)[m];
    CandidateAt(s, m);
  }

  /** The search always replaces the LONG_MAX sentinel. */
  lemma ScanSentinel(s: Search)
    requires Searchable(s) && 0 < |s.order|
    ensures Scan(s, Count(s)).error < LONG_MAX
  {
    ScanIsFirstMinimum(s, Count(s));
  }

  /** No displacement in any searched plane beats the search result. */
  lemma ScanBeats(s: Search, c: Candidate)
    requires Searchable(s) && c.dir in s.order && -BORDER <= c.y <= BORDER && -BORDER <= c.x <= BORDER
    ensures Scan(s, Count(s)).error <= Cost(s, c)
  {
    var p :| 0 <= p < |s.order| && s.order[p] == c.dir;
    CandidateIs(s, p, c.y, c.x);
    ScanIsFirstMinimum(s, Count(s));
  }

  /** The cost of displacement c is the SAD of the current block against
      the candidate block, both inside their frames. */
  lemma CostAt(q: Search, c: Candidate)
    requires Searchable(q) && c.dir in q.order && -BORDER <= c.y <= BORDER && -BORDER <= c.x <= BORDER
    ensures c.dir in q.planes
    ensures InBlock(|q.cur|, q.base, q.w, q.size, q.size) && InBlock(|q.planes[c.dir]|, CandBase(q, c), q.w, q.size, q.size)
    ensures Cost(q, c) == BlockSad(q.cur, q.base, q.planes[c.dir], CandBase(q, c), q.w, q.size, q.size)
  {
    CandInBlock(q, c);
  }

  /** The SAD of a displacement over a block is the sum of its SADs over the
      block's four quadrants (half the size; bases offset by 0, h columns,
      h rows, and h rows and h columns). */
  lemma CostQuadrants(s: Search, h: nat, q0: Search, q1: Search, q2: Search, q3: Search, c: Candidate)
    requires Searchable(s) && s.size == h + h
    requires Searchable(q0) && q0 == s.(size := h)
    requires Searchable(q1) && q1 == s.(base := s.base + h, size := h)
    requires Searchable(q2) && q2 == s.(base := s.base + h * s.w, size := h)
    requires Searchable(q3) && q3 == s.(base := s.base + h * s.w + h, size := h)
    requires c.dir in s.order && -BORDER <= c.y <= BORDER && -BORDER <= c.x <= BORDER
    ensures Cost(q0, c) + Cost(q1, c) + Cost(q2, c) + Cost(q3, c) == Cost(s, c)
  {
    CostAt(s, c);
    assert q0.base == s.base && CandBase(q0, c) == CandBase(s, c);
    Quadrants(s.cur, s.base, s.planes[c.dir], CandBase(s, c), s.w, h, h,
              q1.base, CandBase(q1, c), q2.base, CandBase(q2, c), q3.base, CandBase(q3, c));
    CostAt(q0, c);
    CostAt(q1, c);
    CostAt(q2, c);
    CostAt(q3, c);
  }

  /** Four searches over the quadrants of a search (same frames, planes and
      window; half the size; bases offset by 0, h columns, h rows, and h rows
      and h columns): their best errors total at most the best error of the
      whole. */
  lemma QuadScansBelowWhole(s: Search, h: nat, q0: Search, q1: Search, q2: Search, q3: Search)
    requires Searchable(s) && 0 < |s.order| && s.size == h + h
    requires Searchable(q0) && q0 == s.(size := h)
    requires Searchable(q1) && q1 == s.(base := s.base + h, size := h)
    requires Searchable(q2) && q2 == s.(base := s.base + h * s.w, size := h)
    requires Searchable(q3) && q3 == s.(base := s.base + h * s.w + h, size := h)
    ensures Scan(q0, Count(q0)).error + Scan(q1, Count(q1)).error +
            Scan(q2, Count(q2)).error + Scan(q3, Count(q3)).error <= Scan(s, Count(s)).error
  {
    ScanIsCandidate(s);
    var v := Scan(s, Count(s));
    var c := Candidate(v.dir, v.y, v.x);
    assert q0.order == q1.order == q2.order == q3.order == s.order;
    ScanBeats(q0, c);
    ScanBeats(q1, c);
    ScanBeats(q2, c);
    ScanBeats(q3, c);
    CostQuadrants(s, h, q0, q1, q2, q3, c);
  }

  /** The candidate the loops reach at plane p, row y, column x. */
  lemma CandidateIs(s: Search, p: int, y: int, x: int)
    requires Searchable(s) && 0 <= p < |s.order| && -BORDER <= y <= BORDER && -BORDER <= x <= BORDER
    ensures 0 <= p * PER_PLANE + (y + BORDER) * WINDOW + (x + BORDER) < Count(s)
    ensures Candidates(s)[p * PER_PLANE + (y + BORDER) * WINDOW + (x + BORDER)] ==
            Motion(x, y, s.order[p], Cost(s, Candidate(s.order[p], y, x)), None)
  {
    var n := Flat(p, y, x);
    PositionsAt(s.order, 0, -BORDER, -BORDER, p, y, x);
    assert Visits(s.order)[n] == Candidate(s.order[p], y, x);
    RecordsAt(s, Visits(s.order), n);
  }

  /** The co-located candidate of plane p, displacement (0, 0), has error 0
      when the block equals the plane's co-located block. */
  lemma StaticCandidate(s: Search, p: int)
    requires Searchable(s) && 0 <= p < |s.order| && s.order[p] in s.planes
    requires InBlock(|s.planes[s.order[p]]|, s.base, s.w, s.size, s.size) && InBlock(|s.cur|, s.base, s.w, s.size, s.size)
    requires SameBlock(s.cur, s.base, s.planes[s.order[p]], s.base, s.w, s.size, s.size)
    ensures 0 <= p * PER_PLANE + BORDER * WINDOW + BORDER < Count(s)
    ensures Candidates(s)[p * PER_PLANE + BORDER * WINDOW + BORDER].error == 0
  {
    StaticCost(s, p);
    CandidateIs(s, p, 0, 0);
  }

  /** A block that equals the co-located block of a reference plane is found
      with error 0. */
  lemma StaticBlockScan(s: Search, p: int)
    requires Searchable(s) && 0 <= p < |s.order| && s.order[p] in s.planes
    requires InBlock(|s.planes[s.order[p]]|, s.base, s.w, s.size, s.size) && InBlock(|s.cur|, s.base, s.w, s.size, s.size)
    requires SameBlock(s.cur, s.base, s.planes[s.order[p]], s.base, s.w, s.size, s.size)
    ensures Scan(s, Count(s)).error == 0
  {
    StaticCandidate(s, p);
    ScanIsFirstMinimum(s, Count(s));
    var m :| 0 <= m < Count(s) && Scan(s, Count(s)) == Candidates(s)[m];
    CandidateAt(s, m);
  }

  /** The candidate at plane p, row y, column x lies inside its plane. */
  lemma CandidateInPlane(s: Search, p: int, y: int, x: int)
    requires Searchable(s) && 0 <= p < |s.order| && -BORDER <= y <= BORDER && -BORDER <= x <= BORDER
    ensures s.order[p] in s.planes
    ensures InBlock(|s.planes[s.order[p]]|, CandBase(s, Candidate(s.order[p], y, x)), s.w, s.size, s.size)
    ensures InBlock(|s.cur|, s.base, s.w, CurRows(s.size), s.size)
    ensures InBlock(|s.cur|, s.base, s.w, s.size, s.size)
  {
    CandInBlock(s, Candidate(s.order[p], y, x));
  }

  /** The cost of that candidate is the SAD of the block at base + y * w + x. */
  lemma CostIs(s: Search, p: int, y: int, x: int)
    requires Searchable(s) && 0 <= p < |s.order| && -BORDER <= y <= BORDER && -BORDER <= x <= BORDER
    requires s.order[p] in s.planes
    requires InBlock(|s.planes[s.order[p]]|, CandBase(s, Candidate(s.order[p], y, x)), s.w, s.size, s.size)
    requires InBlock(|s.cur|, s.base, s.w, s.size, s.size)
    ensures Cost(s, Candidate(s.order[p], y, x)) ==
            BlockSad(s.cur, s.base, s.planes[s.order[p]], CandBase(s, Candidate(s.order[p], y, x)), s.w, s.size, s.size)
  {
  }

  /** The SAD at displacement (0, 0) is 0 when the block equals the
      co-located block of the plane. */
  lemma StaticCost(s: Search, p: int)
    requires Searchable(s) && 0 <= p < |s.order| && s.order[p] in s.planes
    requires InBlock(|s.planes[s.order[p]]|, s.base, s.w, s.size, s.size) && InBlock(|s.cur|, s.base, s.w, s.size, s.size)
    requires SameBlock(s.cur, s.base, s.planes[s.order[p]], s.base, s.w, s.size, s.size)
    ensures Cost(s, Candidate(s.order[p], 0, 0)) == 0
  {
    var c := Candidate(s.order[p], 0, 0);
    CostAt(s, c);
    assert CandBase(s, c) == s.base;
    BlockSadEqual(s.cur, s.base, s.planes[c.dir], s.base, s.w, s.size, s.size);
  }

  /** The SAD of one candidate, with the metric of the block size: the
      whole-block search calls `GetErrorSAD_16x16`, the quadrant search
      `GetErrorSAD_8x8`. */
  method CandidateSad(s: Search, p: int, y: int, x: int) returns (error: int)
    requires Searchable(s) && 0 <= p < |s.order| && -BORDER <= y <= BORDER && -BORDER <= x <= BORDER
    ensures 0 <= p * PER_PLANE + (y + BORDER) * WINDOW + (x + BORDER) < Count(s)
    ensures Candidates(s)[p * PER_PLANE + (y + BORDER) * WINDOW + (x + BORDER)] == Motion(x, y, s.order[p], error, None)
  {
    CandidateInPlane(s, p, y, x);
    var plane := s.planes[s.order[p]];
    var b := s.base + y * s.w + x;
    RowOffsetIsProduct(s.w, y);
    if s.size == 16 {
      error := GetErrorSad16x16(s.cur, s.base, plane, b, s.w);
    } else {
      error := GetErrorSad8x8(s.cur, s.base, plane, b, s.w);
    }
    CostIs(s, p, y, x);
    CandidateIs(s, p, y, x);
  }

  /** One step of the search: candidate n, at plane p, row y, column x,
      replaces the vector in `v` when its SAD is strictly smaller. */
  method Consider(s: Search, v: MV, p: int, y: int, x: int, ghost n: int)
    requires Searchable(s) && 0 <= p < |s.order| && -BORDER <= y <= BORDER && -BORDER <= x <= BORDER
    requires n == p * PER_PLANE + (y + BORDER) * WINDOW + (x + BORDER)
    requires 0 <= n < Count(s) && v.Fields() == Fold(Candidates(s), n)
    modifies v
    ensures v.Fields() == Fold(Candidates(s), n + 1)
    ensures v.subvectors == old(v.subvectors) && v.Repr == old(v.Repr)
  {
    var error := CandidateSad(s, p, y, x);
    if error < v.error {
      v.x := x;
      v.y := y;
      v.dir := s.order[p];
      v.error := error;
    }
  }

  /** The three nested loops of the search: planes in their enumeration
      order, then y, then x.  The fields of `v` hold the best vector so far
      and are overwritten only when a candidate's SAD is strictly smaller; `v`
      starts as a default vector with error LONG_MAX.  The source writes these
      loops twice, for the whole 16x16 block (`best_vector`) and for each 8x8
      quadrant (`subvector`). */
  method SearchBlock(s: Search, v: MV)
    requires Searchable(s) && v.Fields() == DefaultMotion
    modifies v
    ensures v.Fields() == Scan(s, Count(s))
    ensures v.subvectors == old(v.subvectors) && v.Repr == old(v.Repr)
  {
    ghost var n := 0;
    var p := 0;
    while p < |s.order|
      invariant 0 <= p <= |s.order| && n == p * PER_PLANE
      invariant v.Fields() == Fold(Candidates(s), n)
      invariant v.subvectors == old(v.subvectors) && v.Repr == old(v.Repr)
    {
      var y := -BORDER;
      while y <= BORDER
        invariant -BORDER <= y <= BORDER + 1 && n == p * PER_PLANE + (y + BORDER) * WINDOW
        invariant v.Fields() == Fold(Candidates(s), n)
        invariant v.subvectors == old(v.subvectors) && v.Repr == old(v.Repr)
      {
        var x := -BORDER;
        while x <= BORDER
          invariant -BORDER <= x <= BORDER + 1 && n == p * PER_PLANE + (y + BORDER) * WINDOW + (x + BORDER)
          invariant v.Fields() == Fold(Candidates(s), n)
          invariant v.subvectors == old(v.subvectors) && v.Repr == old(v.Repr)
        {
          Consider(s, v, p, y, x, n);
          n := n + 1;
          x := x + 1;
        }
        y := y + 1;
      }
      p := p + 1;
    }
  }
}
